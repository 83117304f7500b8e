/** The hot-updated peer registry of a DKMS (dkms/src/peers.rs; ids in common/src/ids.rs). */
module DkmsPeersSpec {
  import opened Wrappers

  const MAX_ID_LEN: nat := 64
  const MAX_ENDPOINT_LEN: nat := 256
  const MAX_PEERS_FROM_SDN: nat := 1024

  datatype Transport = Orr | Http

  /** What the local configuration decides about a peer. */
  datatype Policy = Policy(transport: Transport, sni: Option<string>, maxHops: Option<int>, orrPath: Option<string>, level: Option<string>)

  datatype PeerCfg = PeerCfg(endpoint: string, orrId: Option<string>, policy: Policy)

  type Peers = map<string, PeerCfg>

  datatype FromSdn = FromSdn(id: string, orr: string, endpoint: string)

  const DEFAULT_POLICY := Policy(Orr, None, None, None, None)

  // ---- what is acceptable ----

  predicate IdChar(c: char) {
    'a' <= c <= 'z' || 'A' <= c <= 'Z' || '0' <= c <= '9'
    || c == '.' || c == '_' || c == ':' || c == '@' || c == '+' || c == '-'
  }

  predicate ValidId(s: string) { 0 < |s| <= MAX_ID_LEN && forall i :: 0 <= i < |s| ==> IdChar(s[i]) }

  /** White space (the Unicode property) or a control character. */
  predicate BlankOrControl(c: char) {
    var n := c as int;
    n <= 0x20 || 0x7F <= n <= 0xA0 || n == 0x1680 || 0x2000 <= n <= 0x200A
    || n == 0x2028 || n == 0x2029 || n == 0x202F || n == 0x205F || n == 0x3000
  }

  function Utf8Len(s: string): nat {
    if s == [] then 0 else
    Utf8Len(s[1..]) + var n := s[0] as int; if n < 0x80 then 1 else if n < 0x800 then 2 else if n < 0x10000 then 3 else 4
  }

  predicate Acceptable(p: FromSdn) {
    && ValidId(p.id) && ValidId(p.orr) && p.endpoint != [] && Utf8Len(p.endpoint) <= MAX_ENDPOINT_LEN
    && forall i :: 0 <= i < |p.endpoint| ==> !BlankOrControl(p.endpoint[i])
  }

  predicate HasSlashes(s: string) { exists i :: 0 <= i < |s| - 1 && s[i] == '/' && s[i + 1] == '/' }

  function Url(endpoint: string): string { if HasSlashes(endpoint) then endpoint else "https://" + endpoint }

  /** The acceptable entries of a list, up to the limit. */
  function Accepted(list: seq<FromSdn>): seq<FromSdn> {
    if list == [] then [] else
    var before, p := Accepted(list[..|list| - 1]), list[|list| - 1];
    if Acceptable(p) && |before| < MAX_PEERS_FROM_SDN then before + [p] else before
  }

  // ---- one list ----

  /** The SDN says where a peer is and through which ORR; the policy stays. */
  function Moved(base: Option<PeerCfg>, p: FromSdn): PeerCfg {
    PeerCfg(Url(p.endpoint), Some(p.orr), if base.Some? then base.value.policy else DEFAULT_POLICY)
  }

  function Get(m: Peers, id: string): Option<PeerCfg> { if id in m then Some(m[id]) else None }

  /** The seed's peers as they are now, then each accepted entry over the present one. */
  function Applied(current: Peers, seeded: set<string>, accepted: seq<FromSdn>): Peers {
    if accepted == [] then map id | id in current && id in seeded :: current[id] else
    var p := accepted[|accepted| - 1];
    Applied(current, seeded, accepted[..|accepted| - 1])[p.id := Moved(Get(current, p.id), p)]
  }

  function DeriveOrr(m: Peers): map<string, string> {
    map id | id in m && m[id].policy.transport == Orr && m[id].orrId.Some? :: m[id].orrId.value
  }

  // ---- runs ----

  /** The registry after a sequence of lists. */
  function Run(seed: Peers, lists: seq<seq<FromSdn>>): Peers {
    if lists == [] then seed
    else Applied(Run(seed, lists[..|lists| - 1]), seed.Keys, Accepted(lists[|lists| - 1]))
  }

  /** The last entry for a peer. */
  function Hit(accepted: seq<FromSdn>, id: string): Option<FromSdn> {
    if accepted == [] then None
    else if accepted[|accepted| - 1].id == id then Some(accepted[|accepted| - 1])
    else Hit(accepted[..|accepted| - 1], id)
  }

  /** What a peer's entry should be, said without the registry: an entry of the last list over
      the seed's policy or the default one; failing that, a seeded peer as before; else none. */
  function Expected(seed: Peers, lists: seq<seq<FromSdn>>, id: string): Option<PeerCfg> {
    if lists == [] then Get(seed, id) else
    match Hit(Accepted(lists[|lists| - 1]), id)
    case Some(p) =>
      Some(PeerCfg(if exists i :: 0 <= i < |p.endpoint| - 1 && p.endpoint[i] == p.endpoint[i + 1] == '/' then p.endpoint else "https://" + p.endpoint,
                   Some(p.orr), if id in seed then seed[id].policy else DEFAULT_POLICY))
    case None => if id in seed then Expected(seed, lists[..|lists| - 1], id) else None
  }

  lemma {:induction false} AppliedGet(current: Peers, seeded: set<string>, accepted: seq<FromSdn>, id: string)
    ensures Get(Applied(current, seeded, accepted), id) ==
            match Hit(accepted, id)
            case Some(p) => Some(Moved(Get(current, id), p))
            case None => if id in seeded then Get(current, id) else None
  {
    if accepted != [] { AppliedGet(current, seeded, accepted[..|accepted| - 1], id); }
  }

  /** Policies are the seed's, or the default for a peer that is not in it. */
  ghost predicate PoliciesKept(seed: Peers, m: Peers) {
    && seed.Keys <= m.Keys
    && forall id :: id in m ==> m[id].policy == if id in seed then seed[id].policy else DEFAULT_POLICY
  }

  lemma {:induction false} RunKeepsPolicies(seed: Peers, lists: seq<seq<FromSdn>>)
    ensures PoliciesKept(seed, Run(seed, lists))
  {
    if lists != [] {
      var before, accepted := Run(seed, lists[..|lists| - 1]), Accepted(lists[|lists| - 1]);
      RunKeepsPolicies(seed, lists[..|lists| - 1]);
      var after := Run(seed, lists);
      forall id ensures id in seed ==> id in after
                ensures id in after ==> after[id].policy == if id in seed then seed[id].policy else DEFAULT_POLICY {
        AppliedGet(before, seed.Keys, accepted, id);
        assert Get(after, id) == Get(Applied(before, seed.Keys, accepted), id);
      }
    }
  }

  /**
   After any sequence of lists every peer's entry is the expected one: in particular an entry
   of the last list depends on that list and the seed alone, and a peer that left it is gone
   unless it is in the seed.
   */
  lemma {:induction false} RunIsExpected(seed: Peers, lists: seq<seq<FromSdn>>, id: string)
    ensures Get(Run(seed, lists), id) == Expected(seed, lists, id)
  {
    if lists != [] {
      var init := lists[..|lists| - 1];
      RunIsExpected(seed, init, id);
      RunKeepsPolicies(seed, init);
      AppliedGet(Run(seed, init), seed.Keys, Accepted(lists[|lists| - 1]), id);
    }
  }

  /** Applying the last list again changes nothing. */
  lemma ReapplyChangesNothing(seed: Peers, lists: seq<seq<FromSdn>>, list: seq<FromSdn>)
    ensures Run(seed, lists + [list] + [list]) == Run(seed, lists + [list])
  {
    var a, b := Run(seed, lists + [list]), Run(seed, lists + [list] + [list]);
    assert (lists + [list])[..|lists|] == lists && (lists + [list] + [list])[..|lists| + 1] == lists + [list];
    RunKeepsPolicies(seed, lists + [list]);
    RunKeepsPolicies(seed, lists);
    forall id ensures Get(a, id) == Get(b, id) {
      AppliedGet(a, seed.Keys, Accepted(list), id);
      AppliedGet(Run(seed, lists), seed.Keys, Accepted(list), id);
    }
    SameGet(a, b);
  }

  lemma SameGet(a: Peers, b: Peers)
    requires forall id :: Get(a, id) == Get(b, id)
    ensures a == b
  {
    forall id ensures id in a <==> id in b { assert Get(a, id) == Get(b, id); }
    forall id | id in a ensures a[id] == b[id] { assert Get(a, id) == Get(b, id); }
  }

  // ---- on the fields ----

  ghost predicate ProperId(s: string) { 1 <= |s| <= 64 && forall i :: 0 <= i < |s| ==> IdChar(s[i]) }

  ghost predicate Clean(s: string) { forall i :: 0 <= i < |s| ==> !BlankOrControl(s[i]) }

  ghost predicate Proper(p: FromSdn) {
    ProperId(p.id) && ProperId(p.orr) && p.endpoint != [] && Utf8Len(p.endpoint) <= 256 && Clean(p.endpoint)
  }

  lemma AcceptableIs(p: FromSdn)
    ensures Acceptable(p) <==> Proper(p)
  {
  }

  /** All proper entries, as many as there are. */
  ghost function AllProper(list: seq<FromSdn>): seq<FromSdn> {
    if list == [] then [] else AllProper(list[..|list| - 1]) + if Proper(list[|list| - 1]) then [list[|list| - 1]] else []
  }

  /** What is accepted of a list are the first 1024 proper entries of it. */
  lemma {:induction false} AcceptedFirst(list: seq<FromSdn>)
    ensures var all := AllProper(list); Accepted(list) == if |all| <= 1024 then all else all[..1024]
  {
    if list != [] {
      AcceptedFirst(list[..|list| - 1]);
      AcceptableIs(list[|list| - 1]);
    }
  }

  /** The entry at place `i` is the last for its peer. */
  ghost predicate LastFor(accepted: seq<FromSdn>, i: nat) {
    i < |accepted| && forall j :: i < j < |accepted| ==> accepted[j].id != accepted[i].id
  }

  lemma {:induction false} HitLast(accepted: seq<FromSdn>, i: nat)
    requires LastFor(accepted, i)
    ensures Hit(accepted, accepted[i].id) == Some(accepted[i])
  {
    if i < |accepted| - 1 {
      assert accepted[|accepted| - 1].id != accepted[i].id;
      HitLast(accepted[..|accepted| - 1], i);
    }
  }

  ghost predicate WithScheme(url: string, endpoint: string) {
    if exists i :: 0 <= i < |endpoint| - 1 && endpoint[i] == '/' && endpoint[i + 1] == '/' then url == endpoint
    else url == "https://" + endpoint
  }

  /** After any lists, the last accepted entry of the last one for a peer says where it is and
      through which ORR; the policy is the seed's or the default. */
  lemma LastEntryCounts(seed: Peers, lists: seq<seq<FromSdn>>, i: nat)
    requires lists != [] && LastFor(Accepted(lists[|lists| - 1]), i)
    ensures var p, m := Accepted(lists[|lists| - 1])[i], Run(seed, lists);
            && p.id in m && m[p.id].orrId == Some(p.orr) && WithScheme(m[p.id].endpoint, p.endpoint)
            && m[p.id].policy == if p.id in seed then seed[p.id].policy else DEFAULT_POLICY
  {
    var p := Accepted(lists[|lists| - 1])[i];
    HitLast(Accepted(lists[|lists| - 1]), i);
    RunIsExpected(seed, lists, p.id);
  }

  lemma {:induction false} HitFrom(accepted: seq<FromSdn>, id: string) returns (i: nat)
    requires Hit(accepted, id).Some?
    ensures LastFor(accepted, i) && accepted[i] == Hit(accepted, id).value && accepted[i].id == id
  {
    i := |accepted| - 1;
    if accepted[i].id != id { i := HitFrom(accepted[..i], id); }
  }

  lemma {:induction false} AcceptedAre(list: seq<FromSdn>, i: nat)
    requires i < |Accepted(list)|
    ensures Acceptable(Accepted(list)[i])
  {
    if i < |Accepted(list[..|list| - 1])| { AcceptedAre(list[..|list| - 1], i); }
  }

  ghost predicate Names(list: seq<FromSdn>, id: string) { exists i :: 0 <= i < |list| && list[i].id == id }

  lemma SchemeClean(url: string, endpoint: string)
    requires WithScheme(url, endpoint) && Clean(endpoint) && endpoint != []
    ensures Clean(url) && url != []
  {
    var scheme := "https://";
    assert Clean(scheme);
    forall i | 0 <= i < |url| ensures !BlankOrControl(url[i]) {
      if url != endpoint && i >= |scheme| { assert url[i] == endpoint[i - |scheme|]; }
    }
  }

  /** After any lists, a peer that is not in the seed is in the last list, and its id and its
      ORR's are proper ids and its endpoint is not empty and holds no blank. */
  lemma {:induction false} NothingMalformed(seed: Peers, lists: seq<seq<FromSdn>>, id: string)
    requires id in Run(seed, lists) && id !in seed
    ensures var e := Run(seed, lists)[id];
            && lists != [] && Names(lists[|lists| - 1], id)
            && ProperId(id) && e.orrId.Some? && ProperId(e.orrId.value)
            && e.endpoint != [] && Clean(e.endpoint)
  {
    RunIsExpected(seed, lists, id);
    var last := lists[|lists| - 1];
    var i := HitFrom(Accepted(last), id);
    AcceptedAre(last, i);
    AcceptableIs(Accepted(last)[i]);
    LastEntryCounts(seed, lists, i);
    SchemeClean(Run(seed, lists)[id].endpoint, Accepted(last)[i].endpoint);
    Listed(last, i);
  }

  lemma {:induction false} Listed(list: seq<FromSdn>, i: nat)
    requires i < |Accepted(list)|
    ensures Names(list, Accepted(list)[i].id)
  {
    var n := |list| - 1;
    if i < |Accepted(list[..n])| {
      Listed(list[..n], i);
      var k :| 0 <= k < n && list[..n][k].id == Accepted(list)[i].id;
      assert list[k].id == Accepted(list)[i].id;
    } else {
      assert list[n].id == Accepted(list)[i].id;
    }
  }
}
