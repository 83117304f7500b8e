/** From the service that generates session keys to the one that stores them. */
module ExtKeysEndToEnd {
  import opened Wrappers
  import opened Bytes
  import opened EncKeysSpec
  import opened EncKeysPool
  import E = EncKeysRuns
  import opened ExtKeysSpec

  // ---- what the sender emits ----

  /** A key of the request, under a pad that covers it. */
  ghost predicate Carries(x: Sent, keys: seq<SessionKey>) { x.key in keys && |x.key.bytes| <= |x.pad.bytes| }

  ghost predicate AllCarry(sent: seq<Sent>, keys: seq<SessionKey>) {
    forall i :: 0 <= i < |sent| ==> Carries(sent[i], keys)
  }

  lemma {:induction false} TaggedAt(peer: Text, taken: Taken, keys: seq<SessionKey>, i: nat)
    requires |taken| == |keys| && i < |keys|
    ensures var r := Tagged(peer, taken, keys); r[i].key == keys[i] && r[i].pad == taken[i].1
  {
    var n := |keys| - 1;
    if i < n { TaggedAt(peer, taken[..n], keys[..n], i); }
  }

  lemma TaggedCarry(peer: Text, taken: Taken, keys: seq<SessionKey>)
    requires Covers(taken, keys)
    ensures AllCarry(Tagged(peer, taken, keys), keys)
  {
    forall i | 0 <= i < |keys| ensures Carries(Tagged(peer, taken, keys)[i], keys) { TaggedAt(peer, taken, keys, i); }
  }

  lemma {:induction false} PreparedCarry(pool: Pool, groups: seq<Group>, keys: seq<SessionKey>)
    requires Prepare(pool, groups, keys).Ready?
    ensures AllCarry(Prepare(pool, groups, keys).sent, keys)
  {
    if groups != [] {
      var n := |groups| - 1;
      PreparedCarry(pool, groups[..n], keys);
      var r := Prepare(pool, groups[..n], keys);
      BuildExact(Of(r.pool, groups[n].peer), groups[n].prefs, keys);
      TaggedCarry(groups[n].peer, Build(Of(r.pool, groups[n].peer), groups[n].prefs, keys).taken, keys);
    }
  }

  /** The service generated this key for some request of the run. */
  ghost predicate Generated(steps: seq<E.Step>, key: SessionKey) {
    exists i :: 0 <= i < |steps| && steps[i].Ask? && key in steps[i].req.keys
  }

  ghost predicate EmitsGenerated(steps: seq<E.Step>, emitted: seq<Sent>) {
    forall i :: 0 <= i < |emitted| ==> Generated(steps, emitted[i].key) && |emitted[i].key.bytes| <= |emitted[i].pad.bytes|
  }

  lemma GeneratedMore(steps: seq<E.Step>, key: SessionKey)
    requires steps != [] && Generated(steps[..|steps| - 1], key)
    ensures Generated(steps, key)
  {
    var i :| 0 <= i < |steps| - 1 && steps[..|steps| - 1][i].Ask? && key in steps[..|steps| - 1][i].req.keys;
    assert steps[i] == steps[..|steps| - 1][i];
  }

  /** What serving a request adds to what was emitted. */
  lemma ServeEmits(c: E.Cfg, n: E.Node, r: E.Request, reachable: set<Text>, failed: set<Text>) returns (sent: seq<Sent>)
    ensures E.Serve(c, n, r, reachable, failed).0.emitted == n.emitted + sent && AllCarry(sent, r.keys)
  {
    sent := E.Serve(c, n, r, reachable, failed).0.emitted[|n.emitted|..];
    if Submit(n.pool, r.groups, r.keys, reachable).Ready? { PreparedCarry(n.pool, r.groups, r.keys); }
  }

  lemma StepEmits(c: E.Cfg, before: seq<E.Step>, n: E.Node, step: E.Step)
    requires EmitsGenerated(before, n.emitted)
    ensures EmitsGenerated(before + [step], E.Next(c, n, step).emitted)
  {
    var steps, n' := before + [step], E.Next(c, n, step);
    assert steps[..|before|] == before;
    forall i | 0 <= i < |n.emitted| ensures Generated(steps, n.emitted[i].key) { GeneratedMore(steps, n.emitted[i].key); }
    if step.Ask? && n'.emitted != n.emitted {
      var sent := ServeEmits(c, n, step.req, step.reachable, step.failed);
      forall i | 0 <= i < |sent| ensures Generated(steps, sent[i].key) && |sent[i].key.bytes| <= |sent[i].pad.bytes| {
        assert Carries(sent[i], step.req.keys) && steps[|before|] == step;
      }
    }
  }

  /** Over every run of the sender, what is emitted is a generated key under a pad that covers it. */
  lemma {:induction false} RunEmits(c: E.Cfg, steps: seq<E.Step>)
    ensures EmitsGenerated(steps, E.Run(c, steps).emitted)
  {
    if steps != [] {
      var before := steps[..|steps| - 1];
      RunEmits(c, before);
      StepEmits(c, before, E.Run(c, before), steps[|steps| - 1]);
      assert before + [steps[|steps| - 1]] == steps;
    }
  }

  // ---- what the receiver stores ----

  /** Session key ids are not drawn twice. */
  ghost predicate FreshKeys(steps: seq<E.Step>) {
    forall k, l :: Generated(steps, k) && Generated(steps, l) && k.id == l.id ==> k == l
  }

  ghost predicate OneKeyPerId(emitted: seq<Sent>) {
    forall a, b :: 0 <= a < |emitted| && 0 <= b < |emitted| && emitted[a].key.id == emitted[b].key.id ==> emitted[a].key == emitted[b].key
  }

  /** A wire key with the id and the digest of something the sender emitted; its value and the
      pad it names may have been changed. */
  ghost predicate From(k: WireKey, emitted: seq<Sent>) {
    exists i :: 0 <= i < |emitted| && k.id == emitted[i].key.id && k.digest == Some(Digest(k.id + emitted[i].key.bytes))
  }

  ghost predicate AllFrom(steps: seq<Step>, emitted: seq<Sent>) {
    forall i :: 0 <= i < |steps| && steps[i].Deliver? ==>
      forall j :: 0 <= j < |steps[i].keys| ==> From(steps[i].keys[j], emitted)
  }

  /** The keys of the emissions by id. */
  function KeyMap(emitted: seq<Sent>): map<Text, seq<byte>> {
    if emitted == [] then map[] else
    KeyMap(emitted[..|emitted| - 1])[emitted[|emitted| - 1].key.id := emitted[|emitted| - 1].key.bytes]
  }

  lemma {:induction false} KeyMapOf(emitted: seq<Sent>, i: nat)
    requires i < |emitted| && OneKeyPerId(emitted)
    ensures emitted[i].key.id in KeyMap(emitted) && KeyMap(emitted)[emitted[i].key.id] == emitted[i].key.bytes
  {
    var n := |emitted| - 1;
    if i < n {
      assert forall a :: 0 <= a < n ==> emitted[..n][a] == emitted[a];
      KeyMapOf(emitted[..n], i);
    }
  }

  lemma {:induction false} KeyMapFrom(emitted: seq<Sent>, id: Text) returns (i: nat)
    requires id in KeyMap(emitted)
    ensures i < |emitted| && emitted[i].key == SessionKey(id, KeyMap(emitted)[id])
  {
    var n := |emitted| - 1;
    if emitted[n].key.id == id {
      i := n;
    } else {
      i := KeyMapFrom(emitted[..n], id);
    }
  }

  lemma EmittedFresh(c: E.Cfg, steps: seq<E.Step>)
    requires FreshKeys(steps)
    ensures OneKeyPerId(E.Run(c, steps).emitted)
  {
    RunEmits(c, steps);
  }

  lemma FromGenuine(emitted: seq<Sent>, k: WireKey)
    requires From(k, emitted)
    requires OneKeyPerId(emitted)
    ensures Genuine(k, KeyMap(emitted))
  {
    var i :| 0 <= i < |emitted| && k.id == emitted[i].key.id && k.digest == Some(Digest(k.id + emitted[i].key.bytes));
    KeyMapOf(emitted, i);
  }

  lemma AllFromGenuine(emitted: seq<Sent>, steps: seq<Step>)
    requires AllFrom(steps, emitted)
    requires OneKeyPerId(emitted)
    ensures AllGenuine(steps, KeyMap(emitted))
  {
    forall i, j | 0 <= i < |steps| && steps[i].Deliver? && 0 <= j < |steps[i].keys| ensures Genuine(steps[i].keys[j], KeyMap(emitted)) {
      FromGenuine(emitted, steps[i].keys[j]);
    }
  }

  /**
   From end to end: over every run of the sender's service and every run of the receiver whose
   envelopes carry ids and digests of the sender's, and whatever else the envelopes and the
   receiver's pads hold, a key stored for the peer is a session key the sender generated for
   some request and emitted, bytes and all.
   */
  lemma StoredWasGenerated(c: E.Cfg, sender: seq<E.Step>, receiver: seq<Step>, id: Text)
    requires FreshKeys(sender) && AllFrom(receiver, E.Run(c, sender).emitted)
    requires id in Run(receiver).inner && Run(receiver).inner[id].origin.Some?
    ensures var key := SessionKey(id, Run(receiver).inner[id].bytes);
            Generated(sender, key) && exists i :: 0 <= i < |E.Run(c, sender).emitted| && E.Run(c, sender).emitted[i].key == key
  {
    var emitted := E.Run(c, sender).emitted;
    EmittedFresh(c, sender);
    AllFromGenuine(emitted, receiver);
    StoredIsGenerated(receiver, KeyMap(emitted));
    var i := KeyMapFrom(emitted, id);
    RunEmits(c, sender);
  }

  /** And an envelope that arrives as it was emitted is stored, if this end has the pad, the
      place and the id free. */
  lemma EmittedIsStored(c: E.Cfg, sender: seq<E.Step>, i: nat, s: Store, p: Text)
    requires i < |E.Run(c, sender).emitted|
    requires var x := E.Run(c, sender).emitted[i]; var q := Dec(s, p);
             && Position(q, x.pad.id) < |q| && q[Position(q, x.pad.id)] == x.pad
             && CountOf(s, p) < MAX_PENDING_PER_ORIGIN && x.key.id !in s.inner
    ensures var x := E.Run(c, sender).emitted[i];
            && |x.key.bytes| <= |x.pad.bytes|
            && var (s', out) := ReceiveKey(s, p, Wrapped(x.key, x.pad));
               out == Acked && x.key.id in s'.inner && s'.inner[x.key.id] == Entry(x.key.bytes, Some(p))
  {
    var x := E.Run(c, sender).emitted[i];
    RunEmits(c, sender);
    CheckedExactly(x.key, x.pad, x.pad);
  }
}
