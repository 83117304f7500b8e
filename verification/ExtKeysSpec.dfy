/**
 Receiving wrapped session keys (dkms/src/service.rs, `handle_incoming_ext_keys`;
 dkms/src/state/pending.rs, `insert_from_peer`): the named pad is taken, the key unwrapped,
 checked against its digest and stored, never over another one.
 */
module ExtKeysSpec {
  import opened Wrappers
  import opened Bytes
  import opened Otp
  import opened EncKeysSpec
  import opened PadIds

  const MAX_PENDING_PER_ORIGIN: nat := 131072

  /** The digest of a key id followed by key bytes. */
  datatype Digest = Digest(of: seq<byte>)

  datatype WireKey = WireKey(id: Text, value: seq<byte>, padId: Option<Text>, digest: Option<Digest>)

  datatype Entry = Entry(bytes: seq<byte>, origin: Option<Text>)

  /** The pads shared with one peer, the stored keys and how many of them each peer sent. */
  datatype Store = Store(dec: map<Text, seq<TKey>>, inner: map<Text, Entry>, perOrigin: map<Text, nat>)

  datatype Refusal = MissingPadId | UnknownPad | PadTooShort | OriginFull

  datatype Outcome = Acked | Dropped | Refused(why: Refusal)

  function Dec(s: Store, p: Text): seq<TKey> { if p in s.dec then s.dec[p] else [] }

  function CountOf(s: Store, p: Text): nat { if p in s.perOrigin then s.perOrigin[p] else 0 }

  function Position(q: seq<TKey>, id: Text): (i: nat)
    ensures i <= |q| && (i < |q| ==> q[i].id == id) && (forall j :: 0 <= j < i ==> q[j].id != id)
  {
    if q == [] || q[0].id == id then 0 else 1 + Position(q[1..], id)
  }

  /** What the sender's digest says about a plaintext. */
  predicate Matches(k: WireKey, plain: seq<byte>) {
    k.digest.Some? ==> k.digest.value == Digest(k.id + plain)
  }

  /** `insert_from_peer`. */
  function Inserted(s: Store, p: Text, id: Text, bytes: seq<byte>): (Store, Outcome) {
    if CountOf(s, p) >= MAX_PENDING_PER_ORIGIN then (s, Refused(OriginFull))
    else if id in s.inner then (s, Dropped)
    else (s.(inner := s.inner[id := Entry(bytes, Some(p))], perOrigin := s.perOrigin[p := CountOf(s, p) + 1]), Acked)
  }

  /** One key of an envelope. The pad is gone whatever comes of it. */
  function ReceiveKey(s: Store, p: Text, k: WireKey): (Store, Outcome) {
    if k.padId.None? then (s, Refused(MissingPadId)) else
    var q := Dec(s, p);
    var i := Position(q, k.padId.value);
    if i == |q| then (s, Refused(UnknownPad)) else
    var s1 := s.(dec := s.dec[p := q[..i] + q[i + 1..]]);
    if |q[i].bytes| < |k.value| then (s1, Refused(PadTooShort)) else
    var plain := Padded(q[i].bytes, k.value);
    if !Matches(k, plain) then (s1, Dropped) else Inserted(s1, p, k.id, plain)
  }

  /** The keys of an envelope in turn, up to the first refusal. */
  function Receive(s: Store, p: Text, keys: seq<WireKey>): (Store, Option<Refusal>, seq<Text>) {
    if keys == [] then (s, None, []) else
    var (s1, bad, acks) := Receive(s, p, keys[..|keys| - 1]);
    if bad.Some? then (s1, bad, acks) else
    var k := keys[|keys| - 1];
    var (s2, out) := ReceiveKey(s1, p, k);
    match out
    case Refused(why) => (s2, Some(why), acks)
    case Acked => (s2, None, acks + [k.id])
    case Dropped => (s2, None, acks)
  }

  // ---- what the digest is worth ----

  /** How the sender wraps a key. */
  function Wrapped(key: SessionKey, pad: TKey): WireKey
    requires |key.bytes| <= |pad.bytes|
  {
    WireKey(key.id, Padded(pad.bytes, key.bytes), Some(pad.id), Some(Digest(key.id + key.bytes)))
  }

  lemma SamePrefix(a: Text, b: seq<byte>, c: seq<byte>)
    requires a + b == a + c
    ensures b == c
  {
    assert b == (a + b)[|a|..] && c == (a + c)[|a|..];
  }

  /** A wrapped key passes the check exactly when the two ends' pads agree over its length, and
      then unwraps to itself. */
  lemma CheckedExactly(key: SessionKey, pad: TKey, mine: TKey)
    requires |key.bytes| <= |pad.bytes| && |key.bytes| <= |mine.bytes|
    ensures var k := Wrapped(key, pad); var plain := Padded(mine.bytes, k.value); var n := |key.bytes|;
            && (Matches(k, plain) <==> mine.bytes[..n] == pad.bytes[..n])
            && (Matches(k, plain) ==> plain == key.bytes)
  {
    var k := Wrapped(key, pad);
    var plain := Padded(mine.bytes, k.value);
    PaddedTwice(pad.bytes, key.bytes);
    PaddedDetermines(mine.bytes, pad.bytes, k.value);
    if Matches(k, plain) { SamePrefix(key.id, key.bytes, plain); }
  }

  // ---- runs ----

  /** The digest was made for the key the sender generated under that id; the rest of the wire
      key and the pads at this end may be anything. */
  ghost predicate Genuine(k: WireKey, generated: map<Text, seq<byte>>) {
    k.id in generated && k.digest == Some(Digest(k.id + generated[k.id]))
  }

  /** A pad arrives, below the ceiling that holds at that moment; an envelope arrives; a key is
      stored or removed here; a peer's pads are cleared; everything is wiped. */
  datatype Step =
    | Fill(peer: Text, key: TKey, ceiling: nat)
    | Deliver(peer: Text, keys: seq<WireKey>)
    | InsertLocal(id: Text, bytes: seq<byte>)
    | Remove(id: Text)
    | ClearPads(peer: Text)
    | Wipe

  /** An entry that goes gives its place back to its origin. */
  function Removed(s: Store, id: Text): Store {
    if id !in s.inner then s else
    var o := s.inner[id].origin;
    s.(inner := s.inner - {id},
       perOrigin := if o.Some? && o.value in s.perOrigin
                    then s.perOrigin[o.value := if s.perOrigin[o.value] == 0 then 0 else s.perOrigin[o.value] - 1]
                    else s.perOrigin)
  }

  function Next(s: Store, step: Step): Store {
    match step
    case Fill(p, key, ceiling) => if |Dec(s, p)| >= ceiling then s else s.(dec := s.dec[p := Dec(s, p) + [key]])
    case Deliver(p, keys) => Receive(s, p, keys).0
    case InsertLocal(id, bytes) => var r := Removed(s, id); r.(inner := r.inner[id := Entry(bytes, None)])
    case Remove(id) => Removed(s, id)
    case ClearPads(p) => s.(dec := s.dec[p := []])
    case Wipe => Store(map[], map[], map[])
  }

  function Run(steps: seq<Step>): Store {
    if steps == [] then Store(map[], map[], map[])
    else Next(Run(steps[..|steps| - 1]), steps[|steps| - 1])
  }

  ghost predicate AllGenuine(steps: seq<Step>, generated: map<Text, seq<byte>>) {
    forall i :: 0 <= i < |steps| && steps[i].Deliver? ==>
      forall j :: 0 <= j < |steps[i].keys| ==> Genuine(steps[i].keys[j], generated)
  }

  /** Every key stored for a peer is the one generated under its id. */
  ghost predicate Agreed(s: Store, generated: map<Text, seq<byte>>) {
    forall id :: id in s.inner && s.inner[id].origin.Some? ==> id in generated && s.inner[id].bytes == generated[id]
  }

  lemma ReceiveKeyAgrees(s: Store, p: Text, k: WireKey, generated: map<Text, seq<byte>>)
    requires Agreed(s, generated) && Genuine(k, generated)
    ensures Agreed(ReceiveKey(s, p, k).0, generated)
  {
    if k.padId.Some? {
      var q := Dec(s, p);
      var i := Position(q, k.padId.value);
      if i < |q| && |q[i].bytes| >= |k.value| {
        var plain := Padded(q[i].bytes, k.value);
        if Matches(k, plain) { SamePrefix(k.id, generated[k.id], plain); }
      }
    }
  }

  lemma {:induction false} ReceiveAgrees(s: Store, p: Text, keys: seq<WireKey>, generated: map<Text, seq<byte>>)
    requires Agreed(s, generated) && forall j :: 0 <= j < |keys| ==> Genuine(keys[j], generated)
    ensures Agreed(Receive(s, p, keys).0, generated)
  {
    if keys != [] {
      ReceiveAgrees(s, p, keys[..|keys| - 1], generated);
      ReceiveKeyAgrees(Receive(s, p, keys[..|keys| - 1]).0, p, keys[|keys| - 1], generated);
    }
  }

  /** Over every run, whatever the pads at this end, a stored key equals the generated one. */
  lemma {:induction false} StoredIsGenerated(steps: seq<Step>, generated: map<Text, seq<byte>>)
    requires AllGenuine(steps, generated)
    ensures Agreed(Run(steps), generated)
  {
    if steps != [] {
      var before, step := steps[..|steps| - 1], steps[|steps| - 1];
      forall i | 0 <= i < |before| && before[i].Deliver?
        ensures forall j :: 0 <= j < |before[i].keys| ==> Genuine(before[i].keys[j], generated)
      {
        assert before[i] == steps[i];
      }
      StoredIsGenerated(before, generated);
      if step.Deliver? { ReceiveAgrees(Run(before), step.peer, step.keys, generated); }
    }
  }

  // ---- places and pads ----

  ghost function Owned(s: Store, p: Text): set<Text> {
    set id | id in s.inner && s.inner[id].origin == Some(p)
  }

  /** The counters count the live entries of each origin, within the bound. */
  ghost predicate Counted(s: Store) {
    forall p :: CountOf(s, p) == |Owned(s, p)| <= MAX_PENDING_PER_ORIGIN
  }

  lemma InsertedCounted(s: Store, p: Text, id: Text, bytes: seq<byte>)
    requires Counted(s)
    ensures Counted(Inserted(s, p, id, bytes).0)
  {
    var s' := Inserted(s, p, id, bytes).0;
    if s' != s {
      forall q ensures CountOf(s', q) == |Owned(s', q)| <= MAX_PENDING_PER_ORIGIN {
        assert CountOf(s, q) == |Owned(s, q)|;
        if q == p {
          assert Owned(s', q) == Owned(s, q) + {id} && id !in Owned(s, q);
        } else {
          assert Owned(s', q) == Owned(s, q);
        }
      }
    }
  }

  lemma RemovedCounted(s: Store, id: Text)
    requires Counted(s)
    ensures Counted(Removed(s, id))
  {
    if id in s.inner {
      var s', o := Removed(s, id), s.inner[id].origin;
      forall q ensures CountOf(s', q) == |Owned(s', q)| <= MAX_PENDING_PER_ORIGIN {
        assert CountOf(s, q) == |Owned(s, q)|;
        if o == Some(q) {
          assert id in Owned(s, q) && Owned(s', q) == Owned(s, q) - {id};
        } else {
          assert Owned(s', q) == Owned(s, q);
        }
      }
    }
  }

  lemma DecIrrelevant(s: Store, dec: map<Text, seq<TKey>>)
    requires Counted(s)
    ensures Counted(s.(dec := dec))
  {
    forall p ensures CountOf(s.(dec := dec), p) == |Owned(s.(dec := dec), p)| <= MAX_PENDING_PER_ORIGIN {
      assert CountOf(s, p) == |Owned(s, p)| && Owned(s.(dec := dec), p) == Owned(s, p);
    }
  }

  lemma {:induction false} ReceiveCounted(s: Store, p: Text, keys: seq<WireKey>)
    requires Counted(s)
    ensures Counted(Receive(s, p, keys).0)
  {
    if keys != [] {
      ReceiveCounted(s, p, keys[..|keys| - 1]);
      var (s1, bad, acks) := Receive(s, p, keys[..|keys| - 1]);
      var k := keys[|keys| - 1];
      if bad.None? && k.padId.Some? {
        var q := Dec(s1, p);
        var i := Position(q, k.padId.value);
        if i < |q| {
          DecIrrelevant(s1, s1.dec[p := q[..i] + q[i + 1..]]);
          if |q[i].bytes| >= |k.value| {
            InsertedCounted(s1.(dec := s1.dec[p := q[..i] + q[i + 1..]]), p, k.id, Padded(q[i].bytes, k.value));
          }
        }
      }
    }
  }

  /** Over every run the counters are exact, so no origin ever holds more than its bound. */
  lemma {:induction false} RunCounted(steps: seq<Step>)
    ensures Counted(Run(steps))
  {
    if steps == [] || steps[|steps| - 1].Wipe? {
      forall p ensures Owned(Run(steps), p) == {} { }
    } else {
      var s, step := Run(steps[..|steps| - 1]), steps[|steps| - 1];
      RunCounted(steps[..|steps| - 1]);
      match step
      case Fill(p, key, _) => DecIrrelevant(s, s.dec[p := Dec(s, p) + [key]]);
      case ClearPads(p) => DecIrrelevant(s, s.dec[p := []]);
      case Deliver(p, keys) => ReceiveCounted(s, p, keys);
      case Remove(id) => RemovedCounted(s, id);
      case InsertLocal(id, bytes) =>
        RemovedCounted(s, id);
        var r := Removed(s, id);
        forall p ensures CountOf(Next(s, step), p) == |Owned(Next(s, step), p)| <= MAX_PENDING_PER_ORIGIN {
          assert CountOf(r, p) == |Owned(r, p)| && Owned(Next(s, step), p) == Owned(r, p);
        }
    }
  }

  /** The pad one key takes, if any. */
  function UsedBy(s: Store, p: Text, k: WireKey): seq<TKey> {
    if k.padId.Some? && Position(Dec(s, p), k.padId.value) < |Dec(s, p)|
    then [Dec(s, p)[Position(Dec(s, p), k.padId.value)]] else []
  }

  /** The pads an envelope uses up. */
  function Used(s: Store, p: Text, keys: seq<WireKey>): seq<TKey> {
    if keys == [] then [] else
    var (s1, bad, _) := Receive(s, p, keys[..|keys| - 1]);
    Used(s, p, keys[..|keys| - 1]) + if bad.None? then UsedBy(s1, p, keys[|keys| - 1]) else []
  }

  lemma TakeOut(q: seq<TKey>, i: nat)
    requires i < |q|
    ensures multiset(q[..i] + q[i + 1..]) + multiset([q[i]]) == multiset(q)
  {
    assert q == q[..i] + [q[i]] + q[i + 1..];
  }

  /** The pads left after one key. */
  function LeftBy(s: Store, p: Text, k: WireKey): seq<TKey> {
    var q := Dec(s, p);
    if k.padId.Some? && Position(q, k.padId.value) < |q|
    then q[..Position(q, k.padId.value)] + q[Position(q, k.padId.value) + 1..] else q
  }

  lemma ReceiveKeyDec(s: Store, p: Text, k: WireKey, q: Text)
    ensures Dec(ReceiveKey(s, p, k).0, q) == if q == p then LeftBy(s, p, k) else Dec(s, q)
  {
  }

  /** `left` and `used` together are `q`. */
  ghost predicate Parts(q: seq<TKey>, left: seq<TKey>, used: seq<TKey>) {
    multiset(left) + multiset(used) == multiset(q)
  }

  lemma NoneUsed(q: seq<TKey>)
    ensures Parts(q, q, [])
  {
  }

  lemma OneUsed(q: seq<TKey>, i: nat)
    requires i < |q|
    ensures Parts(q, q[..i] + q[i + 1..], [q[i]])
  {
    TakeOut(q, i);
  }

  lemma LeftAndUsed(s: Store, p: Text, k: WireKey)
    ensures Parts(Dec(s, p), LeftBy(s, p, k), UsedBy(s, p, k))
  {
    var q := Dec(s, p);
    if k.padId.Some? && Position(q, k.padId.value) < |q| {
      OneUsed(q, Position(q, k.padId.value));
    } else {
      NoneUsed(q);
    }
  }

  lemma PartsJoin(before: seq<TKey>, mid: seq<TKey>, after: seq<TKey>, u: seq<TKey>, v: seq<TKey>)
    requires Parts(before, mid, u) && Parts(mid, after, v)
    ensures Parts(before, after, u + v)
  {
  }

  /** Pads are conserved: those before are those left and those used, each once; other peers'
      are untouched. */
  lemma {:induction false} PadsConserved(s: Store, p: Text, keys: seq<WireKey>)
    ensures Parts(Dec(s, p), Dec(Receive(s, p, keys).0, p), Used(s, p, keys))
    ensures forall q :: q != p ==> Dec(Receive(s, p, keys).0, q) == Dec(s, q)
  {
    if keys == [] {
      NoneUsed(Dec(s, p));
    } else {
      var init, k := keys[..|keys| - 1], keys[|keys| - 1];
      PadsConserved(s, p, init);
      var (s1, bad, acks) := Receive(s, p, init);
      if bad.None? {
        LastReceived(s, p, keys, s1);
        LeftAndUsed(s1, p, k);
        PartsJoin(Dec(s, p), Dec(s1, p), LeftBy(s1, p, k), Used(s, p, init), UsedBy(s1, p, k));
      } else {
        assert Used(s, p, init) + [] == Used(s, p, init);
      }
    }
  }

  lemma LastReceived(s: Store, p: Text, keys: seq<WireKey>, s1: Store)
    requires keys != [] && Receive(s, p, keys[..|keys| - 1]).0 == s1 && Receive(s, p, keys[..|keys| - 1]).1.None?
    ensures forall q :: Dec(Receive(s, p, keys).0, q) == if q == p then LeftBy(s1, p, keys[|keys| - 1]) else Dec(s1, q)
    ensures Used(s, p, keys) == Used(s, p, keys[..|keys| - 1]) + UsedBy(s1, p, keys[|keys| - 1])
  {
    var k := keys[|keys| - 1];
    assert Receive(s, p, keys).0 == ReceiveKey(s1, p, k).0;
    forall q ensures Dec(Receive(s, p, keys).0, q) == if q == p then LeftBy(s1, p, k) else Dec(s1, q) {
      ReceiveKeyDec(s1, p, k, q);
    }
  }

  // ---- pads over whole runs ----

  /** The pads of one peer that a step brings in, uses up, or throws away. */
  function FilledBy(s: Store, step: Step, p: Text): seq<TKey> {
    if step.Fill? && step.peer == p && |Dec(s, p)| < step.ceiling then [step.key] else []
  }

  function UsedUpBy(s: Store, step: Step, p: Text): seq<TKey> {
    if step.Deliver? && step.peer == p then Used(s, p, step.keys) else []
  }

  function ClearedBy(s: Store, step: Step, p: Text): seq<TKey> {
    if step.Wipe? || (step.ClearPads? && step.peer == p) then Dec(s, p) else []
  }

  function FilledIn(steps: seq<Step>, p: Text): seq<TKey> {
    if steps == [] then [] else
    var before := steps[..|steps| - 1];
    FilledIn(before, p) + FilledBy(Run(before), steps[|steps| - 1], p)
  }

  function UsedIn(steps: seq<Step>, p: Text): seq<TKey> {
    if steps == [] then [] else
    var before := steps[..|steps| - 1];
    UsedIn(before, p) + UsedUpBy(Run(before), steps[|steps| - 1], p)
  }

  function ClearedIn(steps: seq<Step>, p: Text): seq<TKey> {
    if steps == [] then [] else
    var before := steps[..|steps| - 1];
    ClearedIn(before, p) + ClearedBy(Run(before), steps[|steps| - 1], p)
  }

  /** `all` is made up of `left`, `used` and `cleared`. */
  ghost predicate Accounted(all: seq<TKey>, left: seq<TKey>, used: seq<TKey>, cleared: seq<TKey>) {
    multiset(all) == multiset(left) + multiset(used) + multiset(cleared)
  }

  lemma AllLeft(q: seq<TKey>, f: seq<TKey>)
    ensures Accounted(q + f, q + f, [], [])
  {
  }

  lemma AllCleared(q: seq<TKey>)
    ensures Accounted(q + [], [], [], q)
  {
    assert q + [] == q;
  }

  lemma AllParted(q: seq<TKey>, left: seq<TKey>, used: seq<TKey>)
    requires Parts(q, left, used)
    ensures Accounted(q + [], left, used, [])
  {
    assert q + [] == q;
  }

  /** The pads of one peer after a step that delivers nothing. */
  lemma QuietPads(s: Store, step: Step, p: Text)
    requires !step.Deliver?
    ensures Dec(Next(s, step), p) == if ClearedBy(s, step, p) != [] then [] else Dec(s, p) + FilledBy(s, step, p)
  {
    assert Dec(s, p) + [] == Dec(s, p);
  }

  /** What one step does to the pads of one peer. */
  lemma StepAccounted(s: Store, step: Step, p: Text)
    ensures Accounted(Dec(s, p) + FilledBy(s, step, p), Dec(Next(s, step), p), UsedUpBy(s, step, p), ClearedBy(s, step, p))
  {
    if step.Deliver? {
      DeliverAccounted(s, step.peer, step.keys, p);
    } else {
      QuietPads(s, step, p);
      if ClearedBy(s, step, p) != [] {
        AllCleared(Dec(s, p));
      } else {
        AllLeft(Dec(s, p), FilledBy(s, step, p));
      }
    }
  }

  lemma DeliverAccounted(s: Store, q: Text, keys: seq<WireKey>, p: Text)
    ensures Accounted(Dec(s, p) + [], Dec(Receive(s, q, keys).0, p), if q == p then Used(s, p, keys) else [], [])
  {
    PadsConserved(s, q, keys);
    if q == p {
      AllParted(Dec(s, p), Dec(Receive(s, q, keys).0, p), Used(s, p, keys));
    } else {
      AllLeft(Dec(s, p), []);
      assert Dec(s, p) + [] == Dec(s, p);
    }
  }

  lemma AccountedJoin(all: seq<TKey>, left: seq<TKey>, used: seq<TKey>, cleared: seq<TKey>,
                      f: seq<TKey>, left': seq<TKey>, u: seq<TKey>, c: seq<TKey>)
    requires Accounted(all, left, used, cleared) && Accounted(left + f, left', u, c)
    ensures Accounted(all + f, left', used + u, cleared + c)
  {
    assert multiset(all + f) == multiset(left + f) + multiset(used) + multiset(cleared);
  }

  /** Over every run, the pads of a peer that ever came in are those left, those used and those
      cleared, each as often as it came in. */
  lemma {:induction false} RunAccounted(steps: seq<Step>, p: Text)
    ensures Accounted(FilledIn(steps, p), Dec(Run(steps), p), UsedIn(steps, p), ClearedIn(steps, p))
  {
    if steps != [] {
      var before, step := steps[..|steps| - 1], steps[|steps| - 1];
      var s := Run(before);
      RunAccounted(before, p);
      StepAccounted(s, step, p);
      AccountedJoin(FilledIn(before, p), Dec(s, p), UsedIn(before, p), ClearedIn(before, p),
                    FilledBy(s, step, p), Dec(Next(s, step), p), UsedUpBy(s, step, p), ClearedBy(s, step, p));
    }
  }

  // ---- one-shot ----

  /** No two pads offered by the peer have the same id. */
  ghost predicate FreshPads(steps: seq<Step>, p: Text) {
    forall i, j :: 0 <= i < j < |steps| && steps[i].Fill? && steps[j].Fill? && steps[i].peer == p && steps[j].peer == p
      ==> steps[i].key.id != steps[j].key.id
  }

  lemma {:induction false} FilledFrom(steps: seq<Step>, p: Text, x: nat) returns (i: nat)
    requires x < |FilledIn(steps, p)|
    ensures i < |steps| && steps[i].Fill? && steps[i].peer == p && steps[i].key == FilledIn(steps, p)[x]
  {
    var before := steps[..|steps| - 1];
    if x < |FilledIn(before, p)| {
      i := FilledFrom(before, p, x);
    } else {
      i := |steps| - 1;
    }
  }

  lemma {:induction false} FilledDistinct(steps: seq<Step>, p: Text)
    requires FreshPads(steps, p)
    ensures DistinctIds(FilledIn(steps, p))
  {
    if steps != [] {
      var before, step := steps[..|steps| - 1], steps[|steps| - 1];
      var f := FilledIn(before, p);
      FilledDistinct(before, p);
      if FilledBy(Run(before), step, p) != [] {
        forall x | 0 <= x < |f| ensures f[x].id != step.key.id {
          var i := FilledFrom(before, p, x);
          assert steps[i] == before[i];
        }
      }
    }
  }

  /**
   A pad is one-shot over every run: if the ids a peer's pads came with are fresh, no id occurs
   twice among those used, cleared and left, so none is used twice and none that was used or
   cleared is ever in the buffer again.
   */
  lemma PadsOneShot(steps: seq<Step>, p: Text)
    requires FreshPads(steps, p)
    ensures DistinctIds(UsedIn(steps, p) + ClearedIn(steps, p) + Dec(Run(steps), p))
  {
    RunAccounted(steps, p);
    FilledDistinct(steps, p);
    SharedIds(FilledIn(steps, p), UsedIn(steps, p) + ClearedIn(steps, p) + Dec(Run(steps), p));
  }
}
