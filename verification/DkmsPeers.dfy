/** The registry in place, with the ORR map derived from it. */
module DkmsPeers {
  import opened DkmsPeersSpec

  lemma {:induction false} AcceptedFull(list: seq<FromSdn>, i: nat)
    requires i <= |list| && |Accepted(list[..i])| >= MAX_PEERS_FROM_SDN
    ensures Accepted(list) == Accepted(list[..i])
  {
    if i < |list| {
      assert list[..|list| - 1][..i] == list[..i];
      AcceptedFull(list[..|list| - 1], i);
    } else {
      assert list[..i] == list;
    }
  }

  lemma AcceptedNext(list: seq<FromSdn>, i: nat)
    requires i < |list|
    ensures var a, p := Accepted(list[..i]), list[i];
            Accepted(list[..i + 1]) == if Acceptable(p) && |a| < MAX_PEERS_FROM_SDN then a + [p] else a
  {
    assert list[..i + 1][..i] == list[..i];
  }

  lemma AppliedNext(current: Peers, seeded: set<string>, a: seq<FromSdn>, p: FromSdn)
    ensures Applied(current, seeded, a + [p]) == Applied(current, seeded, a)[p.id := Moved(Get(current, p.id), p)]
  {
    assert (a + [p])[..|a|] == a;
  }

  /** The loop: skips what is not acceptable and stops at the limit. */
  method BuildNext(current: Peers, seeded: set<string>, list: seq<FromSdn>) returns (next: Peers)
    ensures next == Applied(current, seeded, Accepted(list))
  {
    next := map id | id in current && id in seeded :: current[id];
    ghost var done: seq<FromSdn> := [];
    var accepted := 0;
    for i := 0 to |list|
      invariant done == Accepted(list[..i]) && accepted == |done| <= MAX_PEERS_FROM_SDN
      invariant next == Applied(current, seeded, done)
    {
      var p := list[i];
      AcceptedNext(list, i);
      if Acceptable(p) {
        if accepted >= MAX_PEERS_FROM_SDN {
          AcceptedFull(list, i);
          return;
        }
        accepted := accepted + 1;
        AppliedNext(current, seeded, done, p);
        next := next[p.id := Moved(Get(current, p.id), p)];
        done := done + [p];
      }
    }
    assert list[..|list|] == list;
  }

  class PeerRegistry {
    var inner: Peers
    const seeded: set<string>
    var orr: map<string, string>

    /** The cached ORR map is the one the peers give, and seeded peers are never lost. */
    ghost predicate Valid()
      reads this
    {
      && seeded <= inner.Keys
      && (forall id :: id in orr <==> id in inner && inner[id].policy.transport == Orr && inner[id].orrId.Some?)
      && (forall id :: id in orr ==> id in inner && inner[id].orrId.Some? && orr[id] == inner[id].orrId.value)
    }

    constructor FromConfig(seed: Peers)
      ensures Valid() && inner == Run(seed, []) && seeded == seed.Keys
    {
      inner, seeded, orr := seed, seed.Keys, DeriveOrr(seed);
    }

    /** `apply_from_sdn`: skips what is not acceptable, stops at the limit, and swaps the new map
        and the derived one in if anything changed. */
    method ApplyFromSdn(list: seq<FromSdn>) returns (changed: bool)
      requires Valid()
      modifies this
      ensures Valid() && inner == Applied(old(inner), seeded, Accepted(list))
      ensures changed <==> inner != old(inner)
    {
      var next := BuildNext(inner, seeded, list);
      AppliedSeeded(inner, seeded, Accepted(list));
      if inner == next { return false; }
      orr := DeriveOrr(next);
      inner := next;
      return true;
    }

    static lemma AppliedSeeded(current: Peers, seeded: set<string>, accepted: seq<FromSdn>)
      requires seeded <= current.Keys
      ensures seeded <= Applied(current, seeded, accepted).Keys
    {
      forall id | id in seeded ensures id in Applied(current, seeded, accepted) {
        AppliedGet(current, seeded, accepted, id);
      }
    }
  }
}
