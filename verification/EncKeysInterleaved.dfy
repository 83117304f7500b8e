/**
 Requests prepared at the same time. Each queue is locked for one operation only
 (dkms/src/state/buffer.rs), so any number of requests take pads, give them back and send, one
 operation at a time and in any order, between refills and clears. Each follows its own plan:
 one pad per peer and session key, all of which are sent, or all of which go back
 (dkms/src/service.rs, `build_ext_keys_envelope` and the preparation in `handle_enc_keys`).
 */
module EncKeysInterleaved {
  import opened Bytes
  import opened EncKeysSpec
  import opened EncKeysPool
  import opened PadIds

  /** A pad and the queue it belongs to. */
  datatype Item = Item(peer: Text, grade: Grade, pad: TKey)

  /** Looking for the next pad, in the queue of the grade at place `tried` of the preferences;
      giving back; or done. */
  datatype Phase = Taking(tried: nat) | Returning | Emitted | Undone

  /** `lost` is the pad that was too short, if the request met one. */
  datatype Ongoing = Ongoing(groups: seq<Group>, keys: seq<SessionKey>, taken: seq<Item>, lost: seq<Item>, phase: Phase)

  datatype Node = Node(queues: map<(Text, Grade), seq<TKey>>, reqs: seq<Ongoing>, cleared: seq<Item>)

  function Queue(n: Node, p: Text, g: Grade): seq<TKey> {
    if (p, g) in n.queues then n.queues[(p, g)] else []
  }

  /** What a request needs pads for, in the order it takes them. */
  function Needs(groups: seq<Group>, keys: seq<SessionKey>): seq<(Group, SessionKey)> {
    if groups == [] then [] else
    Needs(groups[..|groups| - 1], keys) + seq(|keys|, i requires 0 <= i < |keys| => (groups[|groups| - 1], keys[i]))
  }

  predicate Complete(r: Ongoing) { |r.taken| >= |Needs(r.groups, r.keys)| }

  /** Session keys of a request within the limits are no longer than a pad. */
  predicate Admissible(keys: seq<SessionKey>) { forall i :: 0 <= i < |keys| ==> |keys[i].bytes| <= TRANSPORT_KEY_BYTES }

  datatype Step =
    | Refill(peer: Text, grade: Grade, key: TKey)
    | Clear(peer: Text, grade: Grade)
    | Start(groups: seq<Group>, keys: seq<SessionKey>)
    | Try(id: nat)
    | Abort(id: nat)
    | GiveOne(id: nat)
    | Send(id: nat)

  function AsItems(p: Text, g: Grade, q: seq<TKey>): seq<Item> { seq(|q|, i requires 0 <= i < |q| => Item(p, g, q[i])) }

  /** A request looks into one queue: it moves on to the next grade, takes the oldest pad, drops
      one that is too short and gives up, or gives up because all were empty. */
  function TryStep(n: Node, id: nat): Node
    requires id < |n.reqs| && n.reqs[id].phase.Taking? && !Complete(n.reqs[id])
  {
    var r := n.reqs[id];
    var group := Needs(r.groups, r.keys)[|r.taken|].0;
    if r.phase.tried >= |group.prefs| then n.(reqs := n.reqs[id := r.(phase := Returning)]) else
    var g := group.prefs[r.phase.tried];
    var q := Queue(n, group.peer, g);
    if q == [] then n.(reqs := n.reqs[id := r.(phase := Taking(r.phase.tried + 1))]) else
    var x := Item(group.peer, g, q[0]);
    var r' := if |q[0].bytes| < TRANSPORT_KEY_BYTES then r.(lost := r.lost + [x], phase := Returning)
              else r.(taken := r.taken + [x], phase := Taking(0));
    n.(queues := n.queues[(group.peer, g) := q[1..]], reqs := n.reqs[id := r'])
  }

  /** The pad taken last goes back first. */
  function GiveStep(n: Node, id: nat): Node
    requires id < |n.reqs|
  {
    var r := n.reqs[id];
    if r.taken == [] then n.(reqs := n.reqs[id := r.(phase := Undone)]) else
    var x := r.taken[|r.taken| - 1];
    n.(queues := n.queues[(x.peer, x.grade) := [x.pad] + Queue(n, x.peer, x.grade)],
       reqs := n.reqs[id := r.(taken := r.taken[..|r.taken| - 1])])
  }

  function Phased(n: Node, id: nat, phase: Phase): Node
    requires id < |n.reqs|
  {
    n.(reqs := n.reqs[id := n.reqs[id].(phase := phase)])
  }

  function Next(n: Node, step: Step): Node {
    match step
    case Refill(p, g, k) => n.(queues := n.queues[(p, g) := Queue(n, p, g) + [k]])
    case Clear(p, g) => n.(queues := n.queues[(p, g) := []], cleared := n.cleared + AsItems(p, g, Queue(n, p, g)))
    case Start(groups, keys) =>
      if Admissible(keys) then n.(reqs := n.reqs + [Ongoing(groups, keys, [], [], Taking(0))]) else n
    case Try(id) => if id < |n.reqs| && n.reqs[id].phase.Taking? && !Complete(n.reqs[id]) then TryStep(n, id) else n
    case Abort(id) => if id < |n.reqs| && n.reqs[id].phase.Taking? && Complete(n.reqs[id]) then Phased(n, id, Returning) else n
    case GiveOne(id) => if id < |n.reqs| && n.reqs[id].phase.Returning? then GiveStep(n, id) else n
    case Send(id) => if id < |n.reqs| && n.reqs[id].phase.Taking? && Complete(n.reqs[id]) then Phased(n, id, Emitted) else n
  }

  function Run(steps: seq<Step>): Node {
    if steps == [] then Node(map[], [], []) else Next(Run(steps[..|steps| - 1]), steps[|steps| - 1])
  }

  // ---- all or nothing ----

  /** What a request holds is what its plan asks for so far, and long enough. */
  ghost predicate Follows(r: Ongoing) {
    var plan := Needs(r.groups, r.keys);
    |r.taken| <= |plan| && forall i :: 0 <= i < |r.taken| ==> Serves(r.taken[i], plan[i].0, plan[i].1)
  }

  ghost predicate Serves(x: Item, group: Group, key: SessionKey) {
    x.peer == group.peer && x.grade in group.prefs && |x.pad.bytes| >= TRANSPORT_KEY_BYTES && |x.pad.bytes| >= |key.bytes|
  }

  ghost predicate ReqInv(r: Ongoing) {
    && Admissible(r.keys) && Follows(r)
    && (r.phase.Emitted? ==> Complete(r)) && (r.phase.Undone? ==> r.taken == [])
    && |r.lost| <= 1 && (r.lost != [] ==> r.phase.Returning? || r.phase.Undone?)
    && forall i :: 0 <= i < |r.lost| ==> |r.lost[i].pad.bytes| < TRANSPORT_KEY_BYTES
  }

  ghost predicate AllInv(n: Node) { forall i :: 0 <= i < |n.reqs| ==> ReqInv(n.reqs[i]) }

  lemma {:induction false} NeedsKeys(groups: seq<Group>, keys: seq<SessionKey>, i: nat)
    requires i < |Needs(groups, keys)|
    ensures Needs(groups, keys)[i].1 in keys
  {
    if groups != [] {
      var init := Needs(groups[..|groups| - 1], keys);
      if i < |init| { NeedsKeys(groups[..|groups| - 1], keys, i); } else { assert Needs(groups, keys)[i].1 == keys[i - |init|]; }
    }
  }

  /** The request after it looked. */
  lemma TryRequest(n: Node, id: nat)
    requires id < |n.reqs| && n.reqs[id].phase.Taking? && !Complete(n.reqs[id]) && ReqInv(n.reqs[id])
    ensures ReqInv(TryStep(n, id).reqs[id])
  {
    var r, r' := n.reqs[id], TryStep(n, id).reqs[id];
    var plan := Needs(r.groups, r.keys);
    NeedsKeys(r.groups, r.keys, |r.taken|);
    assert plan[|r.taken|].1 in r.keys;
  }

  lemma GiveRequest(n: Node, id: nat)
    requires id < |n.reqs| && n.reqs[id].phase.Returning? && ReqInv(n.reqs[id])
    ensures ReqInv(GiveStep(n, id).reqs[id])
  {
  }

  lemma StepKeeps(n: Node, step: Step)
    requires AllInv(n)
    ensures AllInv(Next(n, step))
  {
    var n' := Next(n, step);
    match step
    case Start(groups, keys) =>
      forall i | 0 <= i < |n'.reqs| ensures ReqInv(n'.reqs[i]) { if i < |n.reqs| { assert n'.reqs[i] == n.reqs[i]; } }
    case Try(id) =>
      if n' != n {
        TryRequest(n, id);
        forall i | 0 <= i < |n'.reqs| ensures ReqInv(n'.reqs[i]) { if i != id { assert n'.reqs[i] == n.reqs[i]; } }
      }
    case GiveOne(id) =>
      if n' != n {
        GiveRequest(n, id);
        forall i | 0 <= i < |n'.reqs| ensures ReqInv(n'.reqs[i]) { if i != id { assert n'.reqs[i] == n.reqs[i]; } }
      }
    case _ =>
  }

  /** In every interleaving, a request that sends has one pad per peer and key of its own, each
      from a queue it may use and long enough; one that failed holds nothing, and has lost at
      most one pad, which was too short. */
  lemma {:induction false} AllOrNothing(steps: seq<Step>)
    ensures AllInv(Run(steps))
  {
    if steps != [] {
      AllOrNothing(steps[..|steps| - 1]);
      StepKeeps(Run(steps[..|steps| - 1]), steps[|steps| - 1]);
    }
  }

  /** What was sent or has failed stays so. */
  lemma Settled(n: Node, step: Step, i: nat)
    requires i < |n.reqs| && (n.reqs[i].phase.Emitted? || n.reqs[i].phase.Undone?)
    ensures i < |Next(n, step).reqs| && Next(n, step).reqs[i] == n.reqs[i]
  {
  }

  // ---- counting pads ----

  function Of(items: seq<Item>, p: Text, g: Grade): seq<TKey> {
    if items == [] then []
    else
      var x := items[|items| - 1];
      Of(items[..|items| - 1], p, g) + if x.peer == p && x.grade == g then [x.pad] else []
  }

  lemma {:induction false} OfConcat(a: seq<Item>, b: seq<Item>, p: Text, g: Grade)
    ensures Of(a + b, p, g) == Of(a, p, g) + Of(b, p, g)
  {
    if b == [] {
      assert a + b == a;
    } else {
      OfConcat(a, b[..|b| - 1], p, g);
      assert (a + b)[..|a + b| - 1] == a + b[..|b| - 1];
    }
  }

  lemma OfOne(x: Item, p: Text, g: Grade)
    ensures Of([x], p, g) == if x.peer == p && x.grade == g then [x.pad] else []
  {
    assert [x][..0] == [] && Of([], p, g) == [];
  }

  lemma {:induction false} OfQueue(p: Text, g: Grade, q: seq<TKey>, p': Text, g': Grade)
    ensures Of(AsItems(p, g, q), p', g') == if p == p' && g == g' then q else []
  {
    if q != [] {
      var init := q[..|q| - 1];
      OfQueue(p, g, init, p', g');
      assert AsItems(p, g, q)[..|q| - 1] == AsItems(p, g, init);
      assert init + [q[|q| - 1]] == q;
    }
  }

  function Times(q: seq<TKey>, k: TKey): nat {
    if q == [] then 0 else Times(q[..|q| - 1], k) + if q[|q| - 1] == k then 1 else 0
  }

  lemma {:induction false} TimesConcat(a: seq<TKey>, b: seq<TKey>, k: TKey)
    ensures Times(a + b, k) == Times(a, k) + Times(b, k)
  {
    if b == [] {
      assert a + b == a;
    } else {
      TimesConcat(a, b[..|b| - 1], k);
      assert (a + b)[..|a + b| - 1] == a + b[..|b| - 1];
    }
  }

  lemma {:induction false} TimesIs(q: seq<TKey>, k: TKey)
    ensures multiset(q)[k] == Times(q, k)
  {
    if q != [] {
      TimesIs(q[..|q| - 1], k);
      assert q == q[..|q| - 1] + [q[|q| - 1]];
    }
  }

  lemma OfMore(items: seq<Item>, more: seq<Item>, p: Text, g: Grade, k: TKey)
    ensures Times(Of(items + more, p, g), k) == Times(Of(items, p, g), k) + Times(Of(more, p, g), k)
  {
    OfConcat(items, more, p, g);
    TimesConcat(Of(items, p, g), Of(more, p, g), k);
  }

  function InHands(r: Ongoing, p: Text, g: Grade, k: TKey): nat {
    Times(Of(r.taken, p, g), k) + Times(Of(r.lost, p, g), k)
  }

  function AllHands(reqs: seq<Ongoing>, p: Text, g: Grade, k: TKey): nat {
    if reqs == [] then 0 else AllHands(reqs[..|reqs| - 1], p, g, k) + InHands(reqs[|reqs| - 1], p, g, k)
  }

  lemma {:induction false} HandsChange(reqs: seq<Ongoing>, id: nat, r: Ongoing, p: Text, g: Grade, k: TKey)
    requires id < |reqs|
    ensures AllHands(reqs[id := r], p, g, k) + InHands(reqs[id], p, g, k) == AllHands(reqs, p, g, k) + InHands(r, p, g, k)
  {
    var m := |reqs| - 1;
    if id == m {
      assert reqs[id := r][..m] == reqs[..m];
    } else {
      HandsChange(reqs[..m], id, r, p, g, k);
      assert reqs[id := r][..m] == reqs[..m][id := r];
    }
  }

  /** The places of a pad counted one by one. */
  function Tally(n: Node, p: Text, g: Grade, k: TKey): nat {
    AllHands(n.reqs, p, g, k) + Times(Of(n.cleared, p, g), k) + Times(Queue(n, p, g), k)
  }

  function RefilledBy(step: Step, p: Text, g: Grade): seq<TKey> {
    if step.Refill? && step.peer == p && step.grade == g then [step.key] else []
  }

  /** A pad put in front of its queue. */
  lemma Requeued(n: Node, x: Item, q: seq<TKey>, p: Text, g: Grade, k: TKey)
    requires q == [x.pad] + Queue(n, x.peer, x.grade)
    ensures var n' := n.(queues := n.queues[(x.peer, x.grade) := q]);
            Times(Queue(n', p, g), k) == Times(Queue(n, p, g), k) + Times(Of([x], p, g), k)
  {
    OfOne(x, p, g);
    TimesConcat([x.pad], Queue(n, x.peer, x.grade), k);
  }

  lemma RefillMoves(n: Node, step: Step, p: Text, g: Grade, k: TKey)
    requires step.Refill?
    ensures Tally(Next(n, step), p, g, k) == Tally(n, p, g, k) + Times(RefilledBy(step, p, g), k)
  {
    assert Queue(Next(n, step), p, g) == Queue(n, p, g) + RefilledBy(step, p, g);
    TimesConcat(Queue(n, p, g), RefilledBy(step, p, g), k);
  }

  lemma ClearMoves(n: Node, p': Text, g': Grade, p: Text, g: Grade, k: TKey)
    ensures Tally(Next(n, Clear(p', g')), p, g, k) == Tally(n, p, g, k)
  {
    var q := Queue(n, p', g');
    OfMore(n.cleared, AsItems(p', g', q), p, g, k);
    OfQueue(p', g', q, p, g);
  }

  lemma StartMoves(n: Node, r: Ongoing, p: Text, g: Grade, k: TKey)
    requires r.taken == [] && r.lost == []
    ensures Tally(n.(reqs := n.reqs + [r]), p, g, k) == Tally(n, p, g, k)
  {
    assert (n.reqs + [r])[..|n.reqs|] == n.reqs;
  }

  /** A request changes its phase only. */
  lemma PhaseMoves(n: Node, id: nat, r: Ongoing, p: Text, g: Grade, k: TKey)
    requires id < |n.reqs| && r.taken == n.reqs[id].taken && r.lost == n.reqs[id].lost
    ensures Tally(n.(reqs := n.reqs[id := r]), p, g, k) == Tally(n, p, g, k)
  {
    HandsChange(n.reqs, id, r, p, g, k);
  }

  /** The oldest pad of a queue goes to a request. */
  lemma PopMoves(n: Node, id: nat, r: Ongoing, x: Item, rest: seq<TKey>, p: Text, g: Grade, k: TKey)
    requires id < |n.reqs| && Queue(n, x.peer, x.grade) == [x.pad] + rest
    requires InHands(r, p, g, k) == InHands(n.reqs[id], p, g, k) + Times(Of([x], p, g), k)
    ensures Tally(n.(queues := n.queues[(x.peer, x.grade) := rest], reqs := n.reqs[id := r]), p, g, k) == Tally(n, p, g, k)
  {
    var n' := n.(queues := n.queues[(x.peer, x.grade) := rest]);
    HandsChange(n.reqs, id, r, p, g, k);
    Requeued(n', x, Queue(n, x.peer, x.grade), p, g, k);
    assert Queue(n'.(queues := n'.queues[(x.peer, x.grade) := Queue(n, x.peer, x.grade)]), p, g) == Queue(n, p, g);
  }

  /** The last pad of a request goes back to the front of its queue. */
  lemma PushMoves(n: Node, id: nat, r: Ongoing, x: Item, p: Text, g: Grade, k: TKey)
    requires id < |n.reqs| && InHands(n.reqs[id], p, g, k) == InHands(r, p, g, k) + Times(Of([x], p, g), k)
    ensures Tally(n.(queues := n.queues[(x.peer, x.grade) := [x.pad] + Queue(n, x.peer, x.grade)], reqs := n.reqs[id := r]), p, g, k)
            == Tally(n, p, g, k)
  {
    HandsChange(n.reqs, id, r, p, g, k);
    Requeued(n, x, [x.pad] + Queue(n, x.peer, x.grade), p, g, k);
  }

  lemma HandsMore(r: Ongoing, r': Ongoing, x: Item, p: Text, g: Grade, k: TKey)
    requires (r'.taken == r.taken + [x] && r'.lost == r.lost) || (r'.taken == r.taken && r'.lost == r.lost + [x])
    ensures InHands(r', p, g, k) == InHands(r, p, g, k) + Times(Of([x], p, g), k)
  {
    OfMore(r.taken, [x], p, g, k);
    OfMore(r.lost, [x], p, g, k);
  }

  lemma {:induction false} TryMoves(n: Node, id: nat, p: Text, g: Grade, k: TKey)
    requires id < |n.reqs| && n.reqs[id].phase.Taking? && !Complete(n.reqs[id])
    ensures Tally(TryStep(n, id), p, g, k) == Tally(n, p, g, k)
  {
    var r, r' := n.reqs[id], TryStep(n, id).reqs[id];
    if r'.taken == r.taken && r'.lost == r.lost {
      PhaseMoves(n, id, r', p, g, k);
    } else {
      var group := Needs(r.groups, r.keys)[|r.taken|].0;
      var x := Item(group.peer, group.prefs[r.phase.tried], Queue(n, group.peer, group.prefs[r.phase.tried])[0]);
      var q := Queue(n, x.peer, x.grade);
      HandsMore(r, r', x, p, g, k);
      assert q == [q[0]] + q[1..];
      PopMoves(n, id, r', x, q[1..], p, g, k);
    }
  }

  lemma {:induction false} GiveMoves(n: Node, id: nat, p: Text, g: Grade, k: TKey)
    requires id < |n.reqs|
    ensures Tally(GiveStep(n, id), p, g, k) == Tally(n, p, g, k)
  {
    var r := n.reqs[id];
    if r.taken == [] {
      PhaseMoves(n, id, r.(phase := Undone), p, g, k);
    } else {
      var m := |r.taken| - 1;
      assert r.taken == r.taken[..m] + [r.taken[m]];
      OfMore(r.taken[..m], [r.taken[m]], p, g, k);
      PushMoves(n, id, r.(taken := r.taken[..m]), r.taken[m], p, g, k);
    }
  }

  /** A step moves pads about; only a refill adds one. */
  lemma StepMoves(n: Node, step: Step, p: Text, g: Grade, k: TKey)
    ensures Tally(Next(n, step), p, g, k) == Tally(n, p, g, k) + Times(RefilledBy(step, p, g), k)
  {
    if Next(n, step) != n {
      match step
      case Refill(_, _, _) => RefillMoves(n, step, p, g, k);
      case Clear(p', g') => ClearMoves(n, p', g', p, g, k);
      case Start(groups, keys) => StartMoves(n, Ongoing(groups, keys, [], [], Taking(0)), p, g, k);
      case Try(id) => TryMoves(n, id, p, g, k);
      case Abort(id) => PhaseMoves(n, id, n.reqs[id].(phase := Returning), p, g, k);
      case GiveOne(id) => GiveMoves(n, id, p, g, k);
      case Send(id) => PhaseMoves(n, id, n.reqs[id].(phase := Emitted), p, g, k);
    } else if step.Refill? {
      RefillMoves(n, step, p, g, k);
    }
  }

  function RefilledIn(steps: seq<Step>, p: Text, g: Grade): seq<TKey> {
    if steps == [] then [] else RefilledIn(steps[..|steps| - 1], p, g) + RefilledBy(steps[|steps| - 1], p, g)
  }

  lemma {:induction false} RunTallied(steps: seq<Step>, p: Text, g: Grade, k: TKey)
    ensures Tally(Run(steps), p, g, k) == Times(RefilledIn(steps, p, g), k)
  {
    if steps != [] {
      var before, step := steps[..|steps| - 1], steps[|steps| - 1];
      RunTallied(before, p, g, k);
      TimesConcat(RefilledIn(before, p, g), RefilledBy(step, p, g), k);
      StepMoves(Run(before), step, p, g, k);
    }
  }

  // ---- everywhere ----

  function Hands(r: Ongoing): seq<Item> { r.taken + r.lost }

  function InAllHands(reqs: seq<Ongoing>): seq<Item> {
    if reqs == [] then [] else InAllHands(reqs[..|reqs| - 1]) + Hands(reqs[|reqs| - 1])
  }

  lemma {:induction false} AllHandsIs(reqs: seq<Ongoing>, p: Text, g: Grade, k: TKey)
    ensures Times(Of(InAllHands(reqs), p, g), k) == AllHands(reqs, p, g, k)
  {
    if reqs != [] {
      var r := reqs[|reqs| - 1];
      AllHandsIs(reqs[..|reqs| - 1], p, g, k);
      OfMore(InAllHands(reqs[..|reqs| - 1]), Hands(r), p, g, k);
      OfMore(r.taken, r.lost, p, g, k);
    }
  }

  /** Every pad that was ever put into a queue, wherever it is now. */
  function Everywhere(n: Node, p: Text, g: Grade): seq<TKey> {
    Of(InAllHands(n.reqs), p, g) + Of(n.cleared, p, g) + Queue(n, p, g)
  }

  lemma TallyIs(n: Node, p: Text, g: Grade, k: TKey)
    ensures Times(Everywhere(n, p, g), k) == Tally(n, p, g, k)
  {
    var h, c, q := Of(InAllHands(n.reqs), p, g), Of(n.cleared, p, g), Queue(n, p, g);
    AllHandsIs(n.reqs, p, g, k);
    TimesConcat(h + c, q, k);
    TimesConcat(h, c, k);
  }

  /** In every interleaving, the pads a queue ever got are those in the hands of requests, sent
      or not, those cleared and those queued. */
  lemma RunAccounted(steps: seq<Step>, p: Text, g: Grade)
    ensures multiset(Everywhere(Run(steps), p, g)) == multiset(RefilledIn(steps, p, g))
  {
    forall k ensures Times(Everywhere(Run(steps), p, g), k) == Times(RefilledIn(steps, p, g), k) {
      RunTallied(steps, p, g, k);
      TallyIs(Run(steps), p, g, k);
    }
    TimesSame(Everywhere(Run(steps), p, g), RefilledIn(steps, p, g));
  }

  lemma TimesSame(a: seq<TKey>, b: seq<TKey>)
    requires forall k :: Times(a, k) == Times(b, k)
    ensures multiset(a) == multiset(b)
  {
    forall k ensures multiset(a)[k] == multiset(b)[k] {
      TimesIs(a, k);
      TimesIs(b, k);
    }
  }

  ghost predicate AllDone(n: Node) {
    forall i :: 0 <= i < |n.reqs| ==> n.reqs[i].phase.Emitted? || n.reqs[i].phase.Undone?
  }

  /** The pads that requests sent, or lost because they were too short. */
  function Spent(reqs: seq<Ongoing>): seq<Item> {
    if reqs == [] then [] else
    var r := reqs[|reqs| - 1];
    Spent(reqs[..|reqs| - 1]) + if r.phase.Emitted? then r.taken else r.lost
  }

  lemma {:induction false} SpentIs(reqs: seq<Ongoing>)
    requires forall i :: 0 <= i < |reqs| ==> ReqInv(reqs[i]) && (reqs[i].phase.Emitted? || reqs[i].phase.Undone?)
    ensures InAllHands(reqs) == Spent(reqs)
  {
    if reqs != [] {
      var m := |reqs| - 1;
      assert forall i :: 0 <= i < m ==> reqs[..m][i] == reqs[i];
      SpentIs(reqs[..m]);
      assert ReqInv(reqs[m]);
      assert reqs[m].taken + [] == reqs[m].taken && [] + reqs[m].lost == reqs[m].lost;
    }
  }

  /**
   Rollback across requests: once all are done, the pads a queue ever got are those sent, those
   that were too short, those cleared and those queued. So every pad a failed request took, but
   the one that was too short, is back in its queue or was used or cleared since.
   */
  lemma AllReturned(steps: seq<Step>, p: Text, g: Grade)
    requires AllDone(Run(steps))
    ensures var n := Run(steps);
            multiset(RefilledIn(steps, p, g)) == multiset(Of(Spent(n.reqs), p, g) + Of(n.cleared, p, g) + Queue(n, p, g))
  {
    RunAccounted(steps, p, g);
    AllOrNothing(steps);
    SpentIs(Run(steps).reqs);
  }

  // ---- one-shot ----

  /** No two pads ever come with the same id. */
  ghost predicate Fresh(steps: seq<Step>) {
    forall i, j :: 0 <= i < j < |steps| && steps[i].Refill? && steps[j].Refill? ==> steps[i].key.id != steps[j].key.id
  }

  lemma {:induction false} RefilledFrom(steps: seq<Step>, p: Text, g: Grade, k: TKey) returns (i: nat)
    requires k in RefilledIn(steps, p, g)
    ensures i < |steps| && steps[i] == Refill(p, g, k)
  {
    var before := steps[..|steps| - 1];
    if k in RefilledIn(before, p, g) {
      i := RefilledFrom(before, p, g, k);
    } else {
      i := |steps| - 1;
    }
  }

  lemma {:induction false} RefilledDistinct(steps: seq<Step>, p: Text, g: Grade)
    requires Fresh(steps)
    ensures DistinctIds(RefilledIn(steps, p, g))
  {
    if steps != [] {
      var before, step := steps[..|steps| - 1], steps[|steps| - 1];
      var f := RefilledIn(before, p, g);
      RefilledDistinct(before, p, g);
      if RefilledBy(step, p, g) != [] {
        forall x | 0 <= x < |f| ensures f[x].id != step.key.id {
          var i := RefilledFrom(before, p, g, f[x]);
          assert steps[i] == before[i];
        }
      }
    }
  }

  /** No id occurs twice among all the pads of one queue, wherever they are. */
  lemma PlacesDistinct(steps: seq<Step>, p: Text, g: Grade)
    requires Fresh(steps)
    ensures DistinctIds(Everywhere(Run(steps), p, g))
  {
    RunAccounted(steps, p, g);
    RefilledDistinct(steps, p, g);
    SharedIds(RefilledIn(steps, p, g), Everywhere(Run(steps), p, g));
  }

  lemma {:induction false} OfAt(items: seq<Item>, i: nat)
    requires i < |items|
    ensures items[i].pad in Of(items, items[i].peer, items[i].grade)
  {
    if i < |items| - 1 { OfAt(items[..|items| - 1], i); }
  }

  lemma PadFrom(steps: seq<Step>, p: Text, g: Grade, k: TKey) returns (r: nat)
    requires k in Everywhere(Run(steps), p, g)
    ensures r < |steps| && steps[r] == Refill(p, g, k)
  {
    RunAccounted(steps, p, g);
    assert k in multiset(Everywhere(Run(steps), p, g)) && k in multiset(RefilledIn(steps, p, g));
    r := RefilledFrom(steps, p, g, k);
  }

  lemma {:induction false} OfPair(items: seq<Item>, i: nat, j: nat)
    requires i < j < |items| && items[i].peer == items[j].peer && items[i].grade == items[j].grade
    requires DistinctIds(Of(items, items[i].peer, items[i].grade))
    ensures items[i].pad.id != items[j].pad.id
  {
    var init, p, g := items[..|items| - 1], items[i].peer, items[i].grade;
    var q, q' := Of(items, p, g), Of(init, p, g);
    assert forall a :: 0 <= a < |q'| ==> q[a] == q'[a];
    if j < |items| - 1 {
      assert init[i] == items[i] && init[j] == items[j];
      OfPair(init, i, j);
    } else {
      assert init[i] == items[i];
      OfAt(init, i);
      var a :| 0 <= a < |q'| && q'[a] == items[i].pad;
      assert q[a] == items[i].pad && q[|q'|] == items[j].pad;
    }
  }

  lemma Front(n: Node, p: Text, g: Grade)
    requires DistinctIds(Everywhere(n, p, g))
    ensures DistinctIds(Of(InAllHands(n.reqs), p, g))
  {
    var q, h := Everywhere(n, p, g), Of(InAllHands(n.reqs), p, g);
    assert forall i :: 0 <= i < |h| ==> q[i] == h[i];
  }

  /** Where the pads of a request come among those of all. */
  lemma {:induction false} HandAt(reqs: seq<Ongoing>, i: nat, a: nat)
    requires i < |reqs| && a < |Hands(reqs[i])|
    ensures var m := |InAllHands(reqs[..i])| + a; m < |InAllHands(reqs)| && InAllHands(reqs)[m] == Hands(reqs[i])[a]
  {
    var l := |reqs| - 1;
    if i < l {
      HandAt(reqs[..l], i, a);
      assert reqs[..l][..i] == reqs[..i];
    }
  }

  lemma {:induction false} HandsBefore(reqs: seq<Ongoing>, i: nat, j: nat)
    requires i < j <= |reqs|
    ensures |InAllHands(reqs[..i])| + |Hands(reqs[i])| <= |InAllHands(reqs[..j])|
  {
    assert reqs[..j][..j - 1] == reqs[..j - 1];
    if i < j - 1 { HandsBefore(reqs, i, j - 1); }
  }

  lemma TakenAt(reqs: seq<Ongoing>, i: nat, a: nat) returns (m: nat)
    requires i < |reqs| && a < |reqs[i].taken|
    ensures m == |InAllHands(reqs[..i])| + a && m < |InAllHands(reqs)| && InAllHands(reqs)[m] == reqs[i].taken[a]
  {
    m := |InAllHands(reqs[..i])| + a;
    HandAt(reqs, i, a);
  }

  lemma TakenInOrder(reqs: seq<Ongoing>, i: nat, a: nat, j: nat, b: nat) returns (m: nat, l: nat)
    requires i < |reqs| && j < |reqs| && (i < j || (i == j && a < b)) && a < |reqs[i].taken| && b < |reqs[j].taken|
    ensures m < l < |InAllHands(reqs)| && InAllHands(reqs)[m] == reqs[i].taken[a] && InAllHands(reqs)[l] == reqs[j].taken[b]
  {
    m := TakenAt(reqs, i, a);
    l := TakenAt(reqs, j, b);
    if i < j { HandsBefore(reqs, i, j); }
  }

  lemma ItemFrom(steps: seq<Step>, m: nat) returns (r: nat)
    requires m < |InAllHands(Run(steps).reqs)|
    ensures var x := InAllHands(Run(steps).reqs)[m]; r < |steps| && steps[r] == Refill(x.peer, x.grade, x.pad)
  {
    var x := InAllHands(Run(steps).reqs)[m];
    OfAt(InAllHands(Run(steps).reqs), m);
    r := PadFrom(steps, x.peer, x.grade, x.pad);
  }

  lemma ItemsDiffer(steps: seq<Step>, m: nat, l: nat)
    requires Fresh(steps) && m < l < |InAllHands(Run(steps).reqs)|
    ensures var q := InAllHands(Run(steps).reqs); q[m].pad.id != q[l].pad.id
  {
    var n := Run(steps);
    var q := InAllHands(n.reqs);
    if q[m].peer == q[l].peer && q[m].grade == q[l].grade {
      PlacesDistinct(steps, q[m].peer, q[m].grade);
      Front(n, q[m].peer, q[m].grade);
      OfPair(q, m, l);
    } else {
      var a := ItemFrom(steps, m);
      var b := ItemFrom(steps, l);
    }
  }

  /** However requests interleave, no two of them ever hold the same pad, sent or not, and none
      holds one twice; so a pad is sent at most once. */
  lemma SentOnce(steps: seq<Step>, i: nat, a: nat, j: nat, b: nat)
    requires Fresh(steps) && i < |Run(steps).reqs| && j < |Run(steps).reqs| && (i < j || (i == j && a < b))
    requires a < |Run(steps).reqs[i].taken| && b < |Run(steps).reqs[j].taken|
    ensures Run(steps).reqs[i].taken[a].pad.id != Run(steps).reqs[j].taken[b].pad.id
  {
    var m, l := TakenInOrder(Run(steps).reqs, i, a, j, b);
    ItemsDiffer(steps, m, l);
  }

  lemma Apart(n: Node, p: Text, g: Grade, k: TKey, l: TKey)
    requires DistinctIds(Everywhere(n, p, g)) && k in Of(InAllHands(n.reqs), p, g) && l in Queue(n, p, g)
    ensures k.id != l.id
  {
    EndsDiffer(Of(InAllHands(n.reqs), p, g), Of(n.cleared, p, g), Queue(n, p, g), k, l);
  }

  lemma EndsDiffer(h: seq<TKey>, c: seq<TKey>, q: seq<TKey>, k: TKey, l: TKey)
    requires DistinctIds(h + c + q) && k in h && l in q
    ensures k.id != l.id
  {
    var a :| 0 <= a < |h| && h[a] == k;
    var b :| 0 <= b < |q| && q[b] == l;
    assert (h + c + q)[a] == k && (h + c + q)[|h| + |c| + b] == l;
  }

  /** And what a request holds or has sent is in no queue. */
  lemma SentStaysSent(steps: seq<Step>, i: nat, a: nat, p: Text, g: Grade, l: TKey)
    requires Fresh(steps) && i < |Run(steps).reqs| && a < |Run(steps).reqs[i].taken| && l in Queue(Run(steps), p, g)
    ensures Run(steps).reqs[i].taken[a].pad.id != l.id
  {
    var m := TakenAt(Run(steps).reqs, i, a);
    ItemUnqueued(steps, m, p, g, l);
  }

  lemma ItemUnqueued(steps: seq<Step>, m: nat, p: Text, g: Grade, l: TKey)
    requires Fresh(steps) && m < |InAllHands(Run(steps).reqs)| && l in Queue(Run(steps), p, g)
    ensures InAllHands(Run(steps).reqs)[m].pad.id != l.id
  {
    var n := Run(steps);
    var x := InAllHands(n.reqs)[m];
    if x.peer == p && x.grade == g {
      PlacesDistinct(steps, p, g);
      OfAt(InAllHands(n.reqs), m);
      Apart(n, p, g, x.pad, l);
    } else {
      var u := ItemFrom(steps, m);
      var v := PadFrom(steps, p, g, l);
    }
  }
}
