/**
 The secrets an ORR keeps per peer (orr/src/peers.rs, `PeerRegistry`): the bootstrap secret,
 the master secret of each epoch, ephemeral secret keys handed out, the confirmed send
 epoch and the flag that admits one establishment at a time.
 */
module OrrRegistry {
  import opened Wrappers
  import opened Bytes
  import opened Symbolic

  /** Ephemeral secret keys kept per peer. */
  const MAX_EPHEMERAL_PER_PEER: nat := 64

  // ---- ordered maps ----

  ghost function Min(s: set<nat>): (k: nat)
    requires s != {}
    ensures k in s && forall x :: x in s ==> k <= x
  {
    var x :| x in s;
    if s == {x} then x else
    var y := Min(s - {x});
    assert forall z :: z in s ==> z == x || z in s - {x};
    if x < y then x else y
  }

  /** The entries of the `n` largest keys. */
  ghost function KeepLargest<T>(m: map<nat, T>, n: nat): (r: map<nat, T>)
    ensures r.Keys <= m.Keys && (forall k :: k in r ==> r[k] == m[k])
    decreases |m|
  {
    if |m| <= n then m else KeepLargest(m - {Min(m.Keys)}, n)
  }

  /** What is dropped is smaller than what stays, and no more is dropped than need be. */
  lemma {:induction false} KeepLargestExact<T>(m: map<nat, T>, n: nat)
    ensures var r := KeepLargest(m, n);
            && |r| == (if |m| <= n then |m| else n)
            && (forall a, b :: a in m && a !in r && b in r ==> a < b)
    decreases |m|
  {
    if |m| > n {
      var k := Min(m.Keys);
      var m' := m - {k};
      assert m'.Keys == m.Keys - {k} && |m'.Keys| == |m'| && |m.Keys| == |m|;
      KeepLargestExact(m', n);
      var r := KeepLargest(m, n);
      forall a, b | a in m && a !in r && b in r ensures a < b {
        assert b in m' && b != k;
        if a != k { assert a in m'; }
      }
    }
  }

  /** Keeping two is enough for the two newest. */
  lemma {:induction false} KeepsNewest<T>(m: map<nat, T>, n: nat, k: nat)
    requires n >= 2 && k in m && forall j :: j in m ==> j <= k + 1
    ensures k in KeepLargest(m, n)
    ensures k + 1 in m ==> k + 1 in KeepLargest(m, n)
    decreases |m|
  {
    if |m| > n {
      var low := Min(m.Keys);
      if low >= k {
        assert m.Keys <= {k, k + 1};
        SubsetSize(m.Keys, {k, k + 1});
      }
      KeepsNewest(m - {low}, n, k);
    }
  }

  lemma SubsetSize(a: set<nat>, b: set<nat>)
    requires a <= b
    ensures |a| <= |b|
  {
    var d := b - a;
    assert b == a + d && a !! d;
  }

  // ---- one peer's entry ----

  datatype Reg = Reg(boot: Option<Secret>, masters: map<nat, Secret>, esks: map<nat, nat>,
                     send: Option<nat>, inflight: bool, pk: Option<nat>)

  const EMPTY: Reg := Reg(None, map[], map[], None, false, None)

  /** `reset_for_bootstrap`: a new bootstrap secret, which also seeds epoch 0, and no history. */
  function Reset(g: Reg, secret: Secret): Reg {
    g.(boot := Some(secret), masters := map[0 := secret], esks := map[], send := None)
  }

  /** `clear_peer_secrets`. */
  function Cleared(g: Reg): Reg {
    g.(boot := None, masters := map[], esks := map[], send := None)
  }

  function WithMaster(g: Reg, epoch: nat, secret: Secret): Reg {
    g.(masters := g.masters[epoch := secret])
  }

  function WithoutMaster(g: Reg, epoch: nat): Reg {
    g.(masters := g.masters - {epoch})
  }

  /** `drop_old_epochs_for`, which never keeps fewer than two. */
  ghost function Pruned(g: Reg, keep: nat): Reg {
    PrunedTo(g, if keep < 2 then 2 else keep)
  }

  ghost function PrunedTo(g: Reg, n: nat): Reg {
    g.(masters := KeepLargest(g.masters, n), esks := KeepLargest(g.esks, n))
  }

  /** Pruning keeps the two newest epochs. */
  lemma PrunedNewest(g: Reg, keep: nat, c: nat)
    requires c in g.masters && forall e :: e in g.masters ==> e <= c + 1
    ensures var h := Pruned(g, keep);
            && h == g.(masters := h.masters, esks := h.esks)
            && c in h.masters && (c + 1 in g.masters ==> c + 1 in h.masters)
            && (forall e :: e in h.masters ==> e in g.masters && h.masters[e] == g.masters[e])
            && (forall e :: e in h.esks ==> e in g.esks && h.esks[e] == g.esks[e])
  {
    PrunedToNewest(g, if keep < 2 then 2 else keep, c);
  }

  lemma PrunedToNewest(g: Reg, n: nat, c: nat)
    requires n >= 2 && c in g.masters && forall e :: e in g.masters ==> e <= c + 1
    ensures var h := PrunedTo(g, n);
            && c in h.masters && (c + 1 in g.masters ==> c + 1 in h.masters)
            && (forall e :: e in h.masters ==> e in g.masters && h.masters[e] == g.masters[e])
            && (forall e :: e in h.esks ==> e in g.esks && h.esks[e] == g.esks[e])
  {
    KeepsNewest(g.masters, n, c);
  }

  ghost function WithEsk(g: Reg, epoch: nat, esk: nat): Reg {
    g.(esks := KeepLargest(g.esks[epoch := esk], MAX_EPHEMERAL_PER_PEER))
  }

  lemma CountMore<T>(m: map<nat, T>, k: nat, v: T)
    ensures |m[k := v]| == |m| + if k in m then 0 else 1
  {
    var r := m[k := v];
    assert r.Keys == m.Keys + {k} && |r.Keys| == |r| && |m.Keys| == |m|;
  }

  /** A new ephemeral key joins those held, of which the 64 of the latest epochs stay. */
  lemma WithEskExactly(g: Reg, epoch: nat, esk: nat)
    ensures var h := WithEsk(g, epoch, esk); var n := |g.esks| + if epoch in g.esks then 0 else 1;
            && h == g.(esks := h.esks) && |h.esks| == (if n <= 64 then n else 64)
            && (forall e :: e in h.esks ==> h.esks[e] == if e == epoch then esk else if e in g.esks then g.esks[e] else 0)
            && (forall e :: e in h.esks ==> e == epoch || e in g.esks)
            && (forall a, b :: (a == epoch || a in g.esks) && a !in h.esks && b in h.esks ==> a < b)
  {
    CountMore(g.esks, epoch, esk);
    KeepLargestExact(g.esks[epoch := esk], MAX_EPHEMERAL_PER_PEER);
  }

  /** Pruning keeps the latest `keep` epochs and ephemeral keys, and at least two of each. */
  lemma PrunedExactly(g: Reg, keep: nat)
    ensures var h := Pruned(g, keep); var n := if keep < 2 then 2 else keep;
            && h == g.(masters := h.masters, esks := h.esks)
            && |h.masters| == (if |g.masters| <= n then |g.masters| else n) && |h.esks| == (if |g.esks| <= n then |g.esks| else n)
            && (forall a, b :: a in g.masters && a !in h.masters && b in h.masters ==> a < b)
            && (forall a, b :: a in g.esks && a !in h.esks && b in h.esks ==> a < b)
            && (forall e :: e in h.masters ==> e in g.masters && h.masters[e] == g.masters[e])
            && (forall e :: e in h.esks ==> e in g.esks && h.esks[e] == g.esks[e])
  {
    KeepLargestExact(g.masters, if keep < 2 then 2 else keep);
    KeepLargestExact(g.esks, if keep < 2 then 2 else keep);
  }

  ghost predicate IsLatest(g: Reg, e: nat) {
    e in g.masters && forall k :: k in g.masters ==> k <= e
  }

  // ---- the registry ----

  method Smallest<T>(m: map<nat, T>) returns (k: nat)
    requires m != map[]
    ensures k in m && forall j :: j in m ==> k <= j
  {
    var left := m.Keys;
    k :| k in left;
    left := left - {k};
    while left != {}
      invariant left <= m.Keys && k in m
      invariant forall j :: j in m && j !in left ==> k <= j
      decreases |left|
    {
      var j :| j in left;
      if j < k { k := j; }
      left := left - {j};
    }
  }

  method Largest<T>(m: map<nat, T>) returns (k: Option<nat>)
    ensures k.None? <==> m == map[]
    ensures k.Some? ==> k.value in m && forall j :: j in m ==> j <= k.value
  {
    k := None;
    var left := m.Keys;
    while left != {}
      invariant left <= m.Keys && (k.None? <==> left == m.Keys)
      invariant k.Some? ==> k.value in m && k.value !in left && forall j :: j in m && j !in left ==> j <= k.value
      decreases |left|
    {
      var j :| j in left;
      if k.None? || k.value < j { k := Some(j); }
      left := left - {j};
    }
  }

  /** The pruning loop: drop the smallest key while there are too many. */
  method PopSmallest<T>(m: map<nat, T>, n: nat) returns (r: map<nat, T>)
    ensures r == KeepLargest(m, n)
  {
    r := m;
    while |r| > n
      invariant KeepLargest(r, n) == KeepLargest(m, n)
      decreases |r|
    {
      var k := Smallest(r);
      assert k == Min(r.Keys);
      r := r - {k};
    }
  }

  function Entry<T>(m: map<Text, map<nat, T>>, p: Text): map<nat, T> {
    if p in m then m[p] else map[]
  }

  method PruneAt<T>(m: map<Text, map<nat, T>>, p: Text, n: nat) returns (r: map<Text, map<nat, T>>)
    ensures Entry(r, p) == KeepLargest(Entry(m, p), n)
    ensures forall q :: q != p ==> Entry(r, q) == Entry(m, q)
  {
    r := m;
    if p in m {
      var e := PopSmallest(m[p], n);
      r := m[p := e];
    }
  }

  class PeerRegistry {
    var bootstraps: map<Text, Secret>
    var masters: map<Text, map<nat, Secret>>
    var esks: map<Text, map<nat, nat>>
    var sends: map<Text, nat>
    var inflight: map<Text, bool>
    var pubkeys: map<Text, nat>

    /** What is kept about one peer. */
    ghost function View(p: Text): Reg
      reads this
    {
      Reg(if p in bootstraps then Some(bootstraps[p]) else None,
          Entry(masters, p), Entry(esks, p),
          if p in sends then Some(sends[p]) else None,
          p in inflight && inflight[p],
          if p in pubkeys then Some(pubkeys[p]) else None)
    }

    constructor ()
      ensures forall p :: View(p) == EMPTY
    {
      bootstraps, masters, esks, sends, inflight, pubkeys := map[], map[], map[], map[], map[], map[];
    }

    method PutPubkey(p: Text, pk: nat)
      modifies this
      ensures View(p) == old(View(p)).(pk := Some(pk))
      ensures forall q :: q != p ==> View(q) == old(View(q))
    {
      pubkeys := pubkeys[p := pk];
    }

    method SetMasterForEpoch(p: Text, epoch: nat, secret: Secret)
      modifies this
      ensures View(p) == WithMaster(old(View(p)), epoch, secret)
      ensures forall q :: q != p ==> View(q) == old(View(q))
    {
      masters := masters[p := Entry(masters, p)[epoch := secret]];
    }

    method ResetForBootstrap(p: Text, secret: Secret)
      modifies this
      ensures View(p) == Reset(old(View(p)), secret)
      ensures forall q :: q != p ==> View(q) == old(View(q))
    {
      masters := masters - {p};
      esks := esks - {p};
      sends := sends - {p};
      bootstraps := bootstraps[p := secret];
      SetMasterForEpoch(p, 0, secret);
    }

    method ClearPeerSecrets(p: Text)
      modifies this
      ensures View(p) == Cleared(old(View(p)))
      ensures forall q :: q != p ==> View(q) == old(View(q))
    {
      bootstraps := bootstraps - {p};
      masters := masters - {p};
      esks := esks - {p};
      sends := sends - {p};
    }

    method RemoveMasterEpoch(p: Text, epoch: nat)
      modifies this
      ensures View(p) == WithoutMaster(old(View(p)), epoch)
      ensures forall q :: q != p ==> View(q) == old(View(q))
    {
      if p in masters { masters := masters[p := masters[p] - {epoch}]; }
    }

    method SetCurrentSendEpoch(p: Text, epoch: nat)
      modifies this
      ensures View(p) == old(View(p)).(send := Some(epoch))
      ensures forall q :: q != p ==> View(q) == old(View(q))
    {
      sends := sends[p := epoch];
    }

    method DropOldEpochsFor(p: Text, keepLast: nat)
      modifies this
      ensures View(p) == Pruned(old(View(p)), keepLast)
      ensures forall q :: q != p ==> View(q) == old(View(q))
    {
      PruneTo(p, if keepLast < 2 then 2 else keepLast);
    }

    method PruneTo(p: Text, keep: nat)
      modifies this`masters, this`esks
      ensures View(p) == PrunedTo(old(View(p)), keep)
      ensures forall q :: q != p ==> View(q) == old(View(q))
    {
      PruneMasters(p, keep);
      PruneEsks(p, keep);
    }

    method PruneMasters(p: Text, keep: nat)
      modifies this`masters
      ensures View(p) == old(View(p)).(masters := KeepLargest(old(View(p)).masters, keep))
      ensures forall q :: q != p ==> View(q) == old(View(q))
    {
      masters := PruneAt(masters, p, keep);
    }

    method PruneEsks(p: Text, keep: nat)
      modifies this`esks
      ensures View(p) == old(View(p)).(esks := KeepLargest(old(View(p)).esks, keep))
      ensures forall q :: q != p ==> View(q) == old(View(q))
    {
      esks := PruneAt(esks, p, keep);
    }

    method StoreEphemeralSk(p: Text, epoch: nat, esk: nat)
      modifies this`esks
      ensures View(p) == WithEsk(old(View(p)), epoch, esk)
      ensures forall q :: q != p ==> View(q) == old(View(q))
    {
      esks := esks[p := Entry(esks, p)[epoch := esk]];
      PruneEsks(p, MAX_EPHEMERAL_PER_PEER);
    }

    /** Hands the key out once. */
    method TakeEphemeralSk(p: Text, epoch: nat) returns (esk: Option<nat>)
      modifies this
      ensures esk == if epoch in old(View(p)).esks then Some(old(View(p)).esks[epoch]) else None
      ensures View(p) == old(View(p)).(esks := old(View(p)).esks - {epoch})
      ensures forall q :: q != p ==> View(q) == old(View(q))
    {
      esk := None;
      if p in esks {
        if epoch in esks[p] { esk := Some(esks[p][epoch]); }
        esks := esks[p := esks[p] - {epoch}];
      }
    }

    method TryMarkRebootstrapInflight(p: Text) returns (ok: bool)
      modifies this
      ensures ok == !old(View(p)).inflight
      ensures View(p) == old(View(p)).(inflight := true)
      ensures forall q :: q != p ==> View(q) == old(View(q))
    {
      if p in inflight && inflight[p] { return false; }
      inflight := inflight[p := true];
      return true;
    }

    method ClearRebootstrapInflight(p: Text)
      modifies this
      ensures View(p) == old(View(p)).(inflight := false)
      ensures forall q :: q != p ==> View(q) == old(View(q))
    {
      inflight := inflight - {p};
    }

    /** The confirmed epoch, or else the latest. */
    method SendEpochFor(p: Text) returns (e: Option<nat>)
      ensures View(p).send.Some? ==> e == View(p).send
      ensures View(p).send.None? && e.Some? ==> IsLatest(View(p), e.value)
      ensures e.None? <==> View(p).send.None? && View(p).masters == map[]
    {
      if p in sends { return Some(sends[p]); }
      e := Largest(Entry(masters, p));
    }
  }
}
