/** Whole requests, and runs of them, against one node's state. */
module EncKeysRuns {
  import opened Wrappers
  import opened Bytes
  import opened EncKeysSpec
  import opened PadIds
  import opened EncKeysPool
  import opened Widths

  // ---- cost ----

  function SatMul(a: nat, b: nat): nat { if a * b > U64_MAX then U64_MAX else a * b }

  function DivCeil(a: nat, b: nat): nat
    requires b > 0
  {
    a / b + if a % b == 0 then 0 else 1
  }

  /** `compute_cost`. */
  function Cost(sizeBytes: nat, number: nat, destinations: nat, unit: nat): nat {
    SatMul(SatMul(DivCeil(sizeBytes, if unit == 0 then 1 else unit), number), if destinations == 0 then 1 else destinations)
  }

  /** What a failed request gets back: the cost of one peer, once per peer. */
  function Refund(sizeBytes: nat, number: nat, destinations: nat, unit: nat): nat {
    Cost(sizeBytes, number, 1, unit) * if destinations == 0 then 1 else destinations
  }

  lemma DivCeilAtMost(a: nat, b: nat)
    requires b > 0
    ensures DivCeil(a, b) <= a
  {
    if b > 1 && a > 0 {
      assert a / b <= a / 2 by {
        if a / b > a / 2 { MulMono(2, b, a / b); }
      }
    }
  }

  lemma MulMono(a: nat, b: nat, c: nat)
    requires a <= b
    ensures a * c <= b * c && c * a <= c * b
  {
  }

  /** Within the limits nothing saturates, and the refund is the charge. */
  lemma RefundIsCharge(sizeBytes: nat, number: nat, destinations: nat, unit: nat)
    requires sizeBytes <= 32 && number <= MAX_KEY_PER_REQUEST && destinations <= MAX_SAE_ID_COUNT
    ensures Refund(sizeBytes, number, destinations, unit) == Cost(sizeBytes, number, destinations, unit)
  {
    var per := DivCeil(sizeBytes, if unit == 0 then 1 else unit);
    DivCeilAtMost(sizeBytes, if unit == 0 then 1 else unit);
    MulMono(per, 32, number);
    assert per * number <= 32 * 64;
    MulMono(per * number, 32 * 64, destinations);
  }

  // ---- one request ----

  /** `keys` are the session keys drawn for the request; `groups` the peers serving its SAEs. */
  datatype Request = Request(number: nat, size: nat, saes: nat, groups: seq<Group>, hasLocal: bool, keys: seq<SessionKey>)

  datatype Node = Node(pool: Pool, home: map<Text, (Text, Grade)>, tokens: nat, pending: map<Text, seq<byte>>, emitted: seq<Sent>)

  datatype Cfg = Cfg(unit: nat, capacity: nat)

  datatype Denial = BadRequest | RateLimited | NotPrepared(why: Failure) | NotDelivered

  /** `check_request_limits`. */
  predicate WithinLimits(r: Request) {
    && r.number <= MAX_KEY_PER_REQUEST
    && r.size % 8 == 0 && MIN_KEY_SIZE_BITS <= r.size <= MAX_KEY_SIZE_BITS
    && r.saes <= MAX_SAE_ID_COUNT
  }

  /** What the generator and the grouping of destinations promise. */
  ghost predicate Drawn(n: Node, r: Request) {
    && |r.keys| == r.number && (forall i :: 0 <= i < |r.keys| ==> |r.keys[i].bytes| == r.size / 8)
    && (forall i :: 0 <= i < |r.keys| ==> r.keys[i].id !in n.pending)
    && |r.groups| <= r.saes
  }

  function Ids(keys: seq<SessionKey>): set<Text> { set i | 0 <= i < |keys| :: keys[i].id }

  function Insert(pending: map<Text, seq<byte>>, keys: seq<SessionKey>): map<Text, seq<byte>> {
    if keys == [] then pending
    else Insert(pending, keys[..|keys| - 1])[keys[|keys| - 1].id := keys[|keys| - 1].bytes]
  }

  lemma {:induction false} InsertRemove(pending: map<Text, seq<byte>>, keys: seq<SessionKey>)
    requires forall i :: 0 <= i < |keys| ==> keys[i].id !in pending
    ensures Insert(pending, keys) - Ids(keys) == pending
  {
    if keys == [] {
      assert Ids(keys) == {};
    } else {
      var init, k := keys[..|keys| - 1], keys[|keys| - 1];
      forall i | 0 <= i < |init| ensures init[i].id !in pending { assert init[i] == keys[i]; }
      InsertRemove(pending, init);
      assert Ids(keys) == Ids(init) + {k.id} by {
        forall x | x in Ids(keys) ensures x in Ids(init) + {k.id} {
          var i :| 0 <= i < |keys| && keys[i].id == x;
          if i < |init| { assert init[i].id == x; }
        }
        forall x | x in Ids(init) ensures x in Ids(keys) {
          var i :| 0 <= i < |init| && init[i].id == x;
          assert keys[i].id == x;
        }
        assert keys[|keys| - 1].id in Ids(keys);
      }
      assert k.id !in pending;
      RemoveMore(Insert(pending, init), Ids(init), k.id, k.bytes, pending);
    }
  }

  lemma RemoveMore(m: map<Text, seq<byte>>, ids: set<Text>, k: Text, v: seq<byte>, base: map<Text, seq<byte>>)
    requires m - ids == base && k !in base
    ensures m[k := v] - (ids + {k}) == base
  {
    var r := m[k := v] - (ids + {k});
    assert forall x :: x in r <==> x in m - ids;
    assert forall x :: x in r ==> r[x] == (m - ids)[x];
  }

  function Min(a: nat, b: nat): nat { if a < b then a else b }

  /** `handle_enc_keys` after the destinations are resolved; `failed` are the peers whose send
      does not come back well. */
  function Serve(c: Cfg, n: Node, r: Request, reachable: set<Text>, failed: set<Text>): (Node, Result<seq<SessionKey>, Denial>) {
    if !WithinLimits(r) then (n, Err(BadRequest)) else
    var cost := Cost(DivCeil(r.size, 8), r.number, |r.groups|, c.unit);
    if n.tokens < cost then (n, Err(RateLimited)) else
    var charged := n.tokens - cost;
    var pending := if r.hasLocal then Insert(n.pending, r.keys) else n.pending;
    match Submit(n.pool, r.groups, r.keys, reachable)
    case Aborted(left, why) =>
      (n.(pool := left, tokens := Min(c.capacity, charged + Refund(DivCeil(r.size, 8), r.number, |r.groups|, c.unit)),
          pending := pending - Ids(r.keys)),
       Err(NotPrepared(why)))
    case Ready(left, sent) =>
      var down := FailedOf(r.groups, failed);
      var n1 := n.(pool := left, emitted := n.emitted + sent);
      if down == 0 then (n1.(tokens := charged, pending := pending), Ok(r.keys))
      else (n1.(tokens := Min(c.capacity, charged + Refund(DivCeil(r.size, 8), r.number, down, c.unit)),
                pending := pending - Ids(r.keys)),
            Err(NotDelivered))
  }

  function FailedOf(groups: seq<Group>, failed: set<Text>): nat {
    if groups == [] then 0
    else FailedOf(groups[..|groups| - 1], failed) + if groups[|groups| - 1].peer in failed then 1 else 0
  }

  /**
   A request that fails before anything is sent leaves nothing behind: no envelope, the same
   tokens, none of its ids pending, and every queue as it was, less at most one pad that was
   too short. The failure that would lose pads does not occur.
   */
  lemma FailureRestores(c: Cfg, n: Node, r: Request, reachable: set<Text>, failed: set<Text>)
    requires Drawn(n, r) && n.tokens <= c.capacity && Serve(c, n, r, reachable, failed).1.Err?
    requires Serve(c, n, r, reachable, failed).1.error.NotPrepared?
    ensures var (n', e) := Serve(c, n, r, reachable, failed);
            && n'.emitted == n.emitted && n'.tokens == n.tokens && n'.pending == n.pending && n'.home == n.home
            && e.error.why != WrapTooShort && Restored(n.pool, n'.pool, e.error.why)
  {
    SubmitExact(n.pool, r.groups, r.keys, reachable);
    assert DivCeil(r.size, 8) <= 32;
    RefundIsCharge(DivCeil(r.size, 8), r.number, |r.groups|, c.unit);
    if r.hasLocal { InsertRemove(n.pending, r.keys); } else { RemoveAbsent(n.pending, r.keys); }
    assert !Oversize(r.keys);
  }

  lemma RemoveAbsent(pending: map<Text, seq<byte>>, keys: seq<SessionKey>)
    requires forall i :: 0 <= i < |keys| ==> keys[i].id !in pending
    ensures pending - Ids(keys) == pending
  {
    var r := pending - Ids(keys);
    assert forall x :: x in pending ==> x !in Ids(keys);
  }

  /** A request whose sends fail keeps charging for the peers that were reached. */
  lemma PartialCharge(c: Cfg, n: Node, r: Request, reachable: set<Text>, failed: set<Text>)
    requires Drawn(n, r) && n.tokens <= c.capacity && Serve(c, n, r, reachable, failed).1 == Err(NotDelivered)
    ensures var n' := Serve(c, n, r, reachable, failed).0; var per := Cost(DivCeil(r.size, 8), r.number, 1, c.unit);
            && n'.tokens == n.tokens - per * (|r.groups| - FailedOf(r.groups, failed))
            && n'.pending == n.pending
  {
    var down, per := FailedOf(r.groups, failed), Cost(DivCeil(r.size, 8), r.number, 1, c.unit);
    FailedAtMost(r.groups, failed);
    RefundIsCharge(DivCeil(r.size, 8), r.number, |r.groups|, c.unit);
    Distribute(per, |r.groups|, down);
    if r.hasLocal { InsertRemove(n.pending, r.keys); } else { RemoveAbsent(n.pending, r.keys); }
  }

  lemma Distribute(a: nat, b: nat, c: nat)
    requires c <= b
    ensures a * (b - c) == a * b - a * c && a * c <= a * b
  {
    MulMono(c, b, a);
  }

  lemma {:induction false} FailedAtMost(groups: seq<Group>, failed: set<Text>)
    ensures FailedOf(groups, failed) <= |groups|
  {
    if groups != [] { FailedAtMost(groups[..|groups| - 1], failed); }
  }

  // ---- runs ----

  datatype Step =
    | Refill(peer: Text, grade: Grade, key: TKey)
    | Clear(peer: Text)
    | Ask(req: Request, reachable: set<Text>, failed: set<Text>)

  /** Fresh pads arrive at the back of their queue, a peer's queues may be cleared, and
      requests are served one after another. */
  function Next(c: Cfg, n: Node, step: Step): Node {
    match step
    case Refill(p, g, k) =>
      if k.id in n.home then n else
      n.(pool := n.pool[p := Of(n.pool, p).With(g, Of(n.pool, p).Enc(g) + [k])], home := n.home[k.id := (p, g)])
    case Clear(p) => n.(pool := n.pool[p := Bufs([], [])])
    case Ask(r, reachable, failed) =>
      if !WithinLimits(r) || |r.keys| != r.number || exists i :: 0 <= i < |r.keys| && |r.keys[i].bytes| != r.size / 8
      then n else Serve(c, n, r, reachable, failed).0
  }

  function Run(c: Cfg, steps: seq<Step>): Node {
    if steps == [] then Node(map[], map[], c.capacity, map[], [])
    else Next(c, Run(c, steps[..|steps| - 1]), steps[|steps| - 1])
  }

  /** All pads a queue has had in the order it had them: those used, then those left. */
  function History(n: Node, p: Text, g: Grade): seq<TKey> {
    SentOf(n.emitted, p, g) + Of(n.pool, p).Enc(g)
  }

  ghost predicate Once(q: seq<TKey>, home: map<Text, (Text, Grade)>, p: Text, g: Grade) {
    && (forall i, j :: 0 <= i < j < |q| ==> q[i].id != q[j].id)
    && (forall i :: 0 <= i < |q| ==> q[i].id in home && home[q[i].id] == (p, g))
  }

  ghost predicate Inv(n: Node) { forall p, g :: Once(History(n, p, g), n.home, p, g) }

  lemma OnceCut(q: seq<TKey>, home: map<Text, (Text, Grade)>, p: Text, g: Grade, a: seq<TKey>, b: seq<TKey>, c: seq<TKey>)
    requires q == a + b + c && Once(q, home, p, g)
    ensures Once(a + c, home, p, g)
  {
    var n, m := |a|, |b|;
    assert forall i :: 0 <= i < |a + c| ==> (a + c)[i] == q[if i < n then i else i + m];
  }

  lemma WithoutEnc(b: Bufs, h: Grade, j: nat, g: Grade)
    requires j < |b.Enc(h)|
    ensures Without(b, h, j).Enc(g) == if g == h then b.Enc(g)[..j] + b.Enc(g)[j + 1..] else b.Enc(g)
  {
  }

  lemma OnceDrop(s: seq<TKey>, q: seq<TKey>, j: nat, home: map<Text, (Text, Grade)>, p: Text, g: Grade)
    requires j < |q| && Once(s + q, home, p, g)
    ensures Once(s + (q[..j] + q[j + 1..]), home, p, g)
  {
    assert s + q == (s + q[..j]) + [q[j]] + q[j + 1..];
    OnceCut(s + q, home, p, g, s + q[..j], [q[j]], q[j + 1..]);
    assert (s + q[..j]) + q[j + 1..] == s + (q[..j] + q[j + 1..]);
  }

  lemma OnceLost(s: seq<TKey>, b: Bufs, b': Bufs, home: map<Text, (Text, Grade)>, p: Text, g: Grade)
    requires Once(s + b.Enc(g), home, p, g) && LostShort(b, b')
    ensures Once(s + b'.Enc(g), home, p, g)
  {
    var h, j :| 0 <= j < |b.Enc(h)| && |b.Enc(h)[j].bytes| < TRANSPORT_KEY_BYTES && b' == Without(b, h, j);
    WithoutEnc(b, h, j, g);
    if h == g { OnceDrop(s, b.Enc(g), j, home, p, g); }
  }

  lemma RestoredOnce(n: Node, left: Pool, why: Failure, p: Text, g: Grade)
    requires Inv(n) && Restored(n.pool, left, why)
    ensures Once(SentOf(n.emitted, p, g) + Of(left, p).Enc(g), n.home, p, g)
  {
    assert Once(History(n, p, g), n.home, p, g);
    if Of(left, p) != Of(n.pool, p) {
      OnceLost(SentOf(n.emitted, p, g), Of(n.pool, p), Of(left, p), n.home, p, g);
    }
  }

  lemma ConservedOnce(n: Node, left: Pool, sent: seq<Sent>, p: Text, g: Grade)
    requires Inv(n) && Conserved(n.pool, left, sent)
    ensures Once(SentOf(n.emitted + sent, p, g) + Of(left, p).Enc(g), n.home, p, g)
  {
    assert Once(History(n, p, g), n.home, p, g);
    SentOfAppend(n.emitted, sent, p, g);
    assert SentOf(sent, p, g) + Of(left, p).Enc(g) == Of(n.pool, p).Enc(g);
    Splice(SentOf(n.emitted + sent, p, g), SentOf(n.emitted, p, g), SentOf(sent, p, g), Of(left, p).Enc(g), Of(n.pool, p).Enc(g));
  }

  /** Serving a request moves pads from the front of what is left to the end of what was used,
      or puts them back. */
  lemma ServeKeepsInv(c: Cfg, n: Node, r: Request, reachable: set<Text>, failed: set<Text>)
    requires Inv(n) && !Oversize(r.keys)
    ensures Inv(Serve(c, n, r, reachable, failed).0)
  {
    var n' := Serve(c, n, r, reachable, failed).0;
    SubmitExact(n.pool, r.groups, r.keys, reachable);
    if WithinLimits(r) && n.tokens >= Cost(DivCeil(r.size, 8), r.number, |r.groups|, c.unit) {
      match Submit(n.pool, r.groups, r.keys, reachable)
      case Aborted(left, why) =>
        forall p, g ensures Once(History(n', p, g), n'.home, p, g) { RestoredOnce(n, left, why, p, g); }
      case Ready(left, sent) =>
        forall p, g ensures Once(History(n', p, g), n'.home, p, g) { ConservedOnce(n, left, sent, p, g); }
    }
  }

  /** A pad that is new everywhere is new in its queue. */
  lemma OnceMore(q: seq<TKey>, home: map<Text, (Text, Grade)>, p: Text, g: Grade, k: TKey, at: (Text, Grade))
    requires Once(q, home, p, g) && k.id !in home
    ensures Once(if at == (p, g) then q + [k] else q, home[k.id := at], p, g)
  {
    assert forall i :: 0 <= i < |q| ==> q[i].id != k.id;
  }

  lemma RefillHistory(c: Cfg, n: Node, peer: Text, grade: Grade, k: TKey, p: Text, g: Grade)
    requires k.id !in n.home
    ensures var n' := Next(c, n, Refill(peer, grade, k));
            History(n', p, g) == if (peer, grade) == (p, g) then History(n, p, g) + [k] else History(n, p, g)
  {
    var n' := Next(c, n, Refill(peer, grade, k));
    assert Of(n'.pool, p).Enc(g) == if (peer, grade) == (p, g) then Of(n.pool, p).Enc(g) + [k] else Of(n.pool, p).Enc(g);
  }

  lemma RefillKeepsInv(c: Cfg, n: Node, peer: Text, grade: Grade, k: TKey)
    requires Inv(n)
    ensures Inv(Next(c, n, Refill(peer, grade, k)))
  {
    var n' := Next(c, n, Refill(peer, grade, k));
    if k.id !in n.home {
      forall p, g ensures Once(History(n', p, g), n'.home, p, g) {
        OnceMore(History(n, p, g), n.home, p, g, k, (peer, grade));
        RefillHistory(c, n, peer, grade, k, p, g);
      }
    }
  }

  lemma ClearKeepsInv(c: Cfg, n: Node, peer: Text)
    requires Inv(n)
    ensures Inv(Next(c, n, Clear(peer)))
  {
    var n' := Next(c, n, Clear(peer));
    forall p, g ensures Once(History(n', p, g), n'.home, p, g) {
      var h := History(n, p, g);
      assert Once(h, n.home, p, g);
      if p == peer {
        assert h == SentOf(n.emitted, p, g) + Of(n.pool, p).Enc(g) + [];
        OnceCut(h, n.home, p, g, SentOf(n.emitted, p, g), Of(n.pool, p).Enc(g), []);
        assert History(n', p, g) == SentOf(n.emitted, p, g) + [];
      }
    }
  }

  lemma {:induction false} RunKeepsInv(c: Cfg, steps: seq<Step>)
    ensures Inv(Run(c, steps))
  {
    if steps != [] {
      var n, step := Run(c, steps[..|steps| - 1]), steps[|steps| - 1];
      RunKeepsInv(c, steps[..|steps| - 1]);
      match step
      case Refill(p, g, k) => RefillKeepsInv(c, n, p, g, k);
      case Clear(p) => ClearKeepsInv(c, n, p);
      case Ask(r, reachable, failed) =>
        if Next(c, n, step) != n {
          assert !Oversize(r.keys);
          ServeKeepsInv(c, n, r, reachable, failed);
        }
    }
  }

  lemma {:induction false} SentAt(sent: seq<Sent>, i: nat)
    requires i < |sent|
    ensures sent[i].pad in SentOf(sent, sent[i].peer, sent[i].grade)
  {
    var x, init := sent[i], sent[..|sent| - 1];
    if i < |sent| - 1 {
      SentAt(init, i);
    } else {
      assert SentOf(sent, x.peer, x.grade) == SentOf(init, x.peer, x.grade) + [x.pad];
    }
  }

  lemma {:induction false} SentDistinct(sent: seq<Sent>, i: nat, j: nat)
    requires i < j < |sent| && sent[i].peer == sent[j].peer && sent[i].grade == sent[j].grade
    requires DistinctIds(SentOf(sent, sent[i].peer, sent[i].grade))
    ensures sent[i].pad.id != sent[j].pad.id
  {
    var init, x := sent[..|sent| - 1], sent[|sent| - 1];
    var p, g := sent[i].peer, sent[i].grade;
    var q, q' := SentOf(sent, p, g), SentOf(init, p, g);
    assert forall a :: 0 <= a < |q'| ==> q[a] == q'[a];
    assert init[i] == sent[i];
    if j < |sent| - 1 {
      assert init[j] == sent[j] && DistinctIds(q');
      SentDistinct(init, i, j);
    } else {
      assert q == q' + [sent[j].pad];
      SentAt(init, i);
      var a :| 0 <= a < |q'| && q'[a] == init[i].pad;
      assert q[a] == sent[i].pad && q[|q'|] == sent[j].pad;
    }
  }

  /** Over every run, a pad wraps at most one session key that is ever sent. */
  lemma PadUsedOnce(c: Cfg, steps: seq<Step>, i: nat, j: nat)
    requires i < j < |Run(c, steps).emitted|
    ensures Run(c, steps).emitted[i].pad.id != Run(c, steps).emitted[j].pad.id
  {
    var n := Run(c, steps);
    RunKeepsInv(c, steps);
    var a, b := n.emitted[i], n.emitted[j];
    SentHome(n, i);
    SentHome(n, j);
    if a.peer == b.peer && a.grade == b.grade {
      assert Once(History(n, a.peer, a.grade), n.home, a.peer, a.grade);
      var q, h := SentOf(n.emitted, a.peer, a.grade), History(n, a.peer, a.grade);
      assert forall k :: 0 <= k < |q| ==> h[k] == q[k];
      assert DistinctIds(q);
      SentDistinct(n.emitted, i, j);
    }
  }

  lemma SentHome(n: Node, i: nat)
    requires Inv(n) && i < |n.emitted|
    ensures n.emitted[i].pad.id in n.home && n.home[n.emitted[i].pad.id] == (n.emitted[i].peer, n.emitted[i].grade)
  {
    var x := n.emitted[i];
    SentAt(n.emitted, i);
    assert Once(History(n, x.peer, x.grade), n.home, x.peer, x.grade);
    var k :| 0 <= k < |SentOf(n.emitted, x.peer, x.grade)| && SentOf(n.emitted, x.peer, x.grade)[k] == x.pad;
    assert History(n, x.peer, x.grade)[k] == x.pad;
  }

  /** And once sent it is never in a queue again. */
  lemma SentNeverReturns(c: Cfg, steps: seq<Step>, i: nat, p: Text, g: Grade, k: nat)
    requires var n := Run(c, steps); i < |n.emitted| && k < |Of(n.pool, p).Enc(g)|
    ensures var n := Run(c, steps); Of(n.pool, p).Enc(g)[k].id != n.emitted[i].pad.id
  {
    var n := Run(c, steps);
    RunKeepsInv(c, steps);
    SentHome(n, i);
    SentAt(n.emitted, i);
    var q, h := SentOf(n.emitted, p, g), History(n, p, g);
    assert Once(h, n.home, p, g) && h[|q| + k] == Of(n.pool, p).Enc(g)[k];
    if n.emitted[i].peer == p && n.emitted[i].grade == g {
      var a :| 0 <= a < |q| && q[a] == n.emitted[i].pad;
      assert h[a] == q[a];
    }
  }
}
