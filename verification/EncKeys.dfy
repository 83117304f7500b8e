/** The key service in place: the queues, the bucket, the pending store and what was sent. */
module EncKeys {
  import opened Wrappers
  import opened Bytes
  import opened EncKeysSpec
  import opened EncKeysPool
  import opened EncKeysRuns

  lemma {:induction false} BuildStays(b: Bufs, prefs: seq<Grade>, keys: seq<SessionKey>, i: nat)
    requires i <= |keys| && Build(b, prefs, keys[..i]).Failed?
    ensures Build(b, prefs, keys) == Build(b, prefs, keys[..i])
  {
    if i < |keys| {
      assert keys[..|keys| - 1][..i] == keys[..i];
      BuildStays(b, prefs, keys[..|keys| - 1], i);
    } else {
      assert keys[..i] == keys;
    }
  }

  lemma {:induction false} PrepareStays(pool: Pool, groups: seq<Group>, keys: seq<SessionKey>, i: nat)
    requires i <= |groups| && Prepare(pool, groups[..i], keys).Aborted?
    ensures Prepare(pool, groups, keys) == Prepare(pool, groups[..i], keys)
  {
    if i < |groups| {
      assert groups[..|groups| - 1][..i] == groups[..i];
      PrepareStays(pool, groups[..|groups| - 1], keys, i);
    } else {
      assert groups[..i] == groups;
    }
  }

  /** Pops from the first queue in preference order that is not empty. */
  method EncPopPref(b: Bufs, prefs: seq<Grade>) returns (r: Option<(Grade, TKey, Bufs)>)
    ensures r == PopPref(b, prefs)
  {
    for i := 0 to |prefs|
      invariant PopPref(b, prefs) == PopPref(b, prefs[i..])
    {
      var q := b.Enc(prefs[i]);
      if q != [] { return Some((prefs[i], q[0], b.With(prefs[i], q[1..]))); }
      assert prefs[i..][1..] == prefs[i + 1..];
    }
    return None;
  }

  method ReturnTaken(b: Bufs, taken: Taken) returns (r: Bufs)
    ensures r == GiveBack(b, taken)
  {
    r := b;
    var i := |taken|;
    assert taken[..i] == taken;
    while i > 0
      invariant 0 <= i <= |taken| && GiveBack(r, taken[..i]) == GiveBack(b, taken)
    {
      i := i - 1;
      assert taken[..i + 1][..i] == taken[..i];
      r := PushFront(r, taken[i].0, taken[i].1);
    }
  }

  /** One envelope against one peer's queues. */
  method BuildFrom(b: Bufs, prefs: seq<Grade>, keys: seq<SessionKey>) returns (left: Bufs, r: Result<Taken, Failure>)
    ensures match Build(b, prefs, keys)
            case Built(b', taken) => r == Ok(taken) && left == b'
            case Failed(b', why) => r == Err(why) && left == b'
  {
    left := b;
    var taken := [];
    for i := 0 to |keys|
      invariant Build(b, prefs, keys[..i]) == Built(left, taken)
    {
      assert keys[..i + 1][..i] == keys[..i];
      var popped := EncPopPref(left, prefs);
      if popped.None? {
        left := ReturnTaken(left, taken);
        BuildStays(b, prefs, keys, i + 1);
        return left, Err(BufferEmpty);
      }
      var (g, k, rest) := popped.value;
      left := rest;
      if |k.bytes| < TRANSPORT_KEY_BYTES {
        left := ReturnTaken(left, taken);
        BuildStays(b, prefs, keys, i + 1);
        return left, Err(KeyTooShort);
      }
      if |k.bytes| < |keys[i].bytes| {
        BuildStays(b, prefs, keys, i + 1);
        return left, Err(WrapTooShort);
      }
      taken := taken + [(g, k)];
    }
    assert keys[..|keys|] == keys;
    return left, Ok(taken);
  }

  class KeyService {
    const cfg: Cfg
    var pool: Pool
    var tokens: nat
    var pending: map<Text, seq<byte>>
    var emitted: seq<Sent>
    ghost var home: map<Text, (Text, Grade)>

    ghost function View(): Node
      reads this
    {
      Node(pool, home, tokens, pending, emitted)
    }

    constructor (cfg: Cfg)
      ensures this.cfg == cfg && View() == Run(cfg, [])
    {
      this.cfg, pool, tokens, pending, emitted, home := cfg, map[], cfg.capacity, map[], [], map[];
    }

    method BuildEnvelope(p: Text, prefs: seq<Grade>, keys: seq<SessionKey>) returns (r: Result<Taken, Failure>)
      modifies this`pool
      ensures match Build(Of(old(pool), p), prefs, keys)
              case Built(b, taken) => r == Ok(taken) && pool == old(pool)[p := b]
              case Failed(b, why) => r == Err(why) && pool == old(pool)[p := b]
    {
      var left;
      left, r := BuildFrom(Of(pool, p), prefs, keys);
      pool := pool[p := left];
    }

    method ReturnAll(sent: seq<Sent>)
      modifies this`pool
      ensures pool == GiveBackAll(old(pool), sent)
    {
      var i := |sent|;
      assert sent[..i] == sent;
      while i > 0
        invariant 0 <= i <= |sent| && GiveBackAll(pool, sent[..i]) == GiveBackAll(old(pool), sent)
      {
        i := i - 1;
        assert sent[..i + 1][..i] == sent[..i];
        pool := pool[sent[i].peer := PushFront(Of(pool, sent[i].peer), sent[i].grade, sent[i].pad)];
      }
    }

    /** All envelopes, or none and everything returned. */
    method PrepareAll(groups: seq<Group>, keys: seq<SessionKey>) returns (r: Result<seq<Sent>, Failure>)
      modifies this`pool
      ensures match Prepare(old(pool), groups, keys)
              case Ready(left, sent) => r == Ok(sent) && pool == left
              case Aborted(left, why) => r == Err(why) && pool == left
    {
      var sent := [];
      for i := 0 to |groups|
        invariant Prepare(old(pool), groups[..i], keys) == Ready(pool, sent)
      {
        assert groups[..i + 1][..i] == groups[..i];
        BuildExact(Of(pool, groups[i].peer), groups[i].prefs, keys);
        var built := BuildEnvelope(groups[i].peer, groups[i].prefs, keys);
        if built.Err? {
          ReturnAll(sent);
          PrepareStays(old(pool), groups, keys, i + 1);
          return Err(built.error);
        }
        sent := sent + Tagged(groups[i].peer, built.value, keys);
      }
      assert groups[..|groups|] == groups;
      return Ok(sent);
    }

    method InsertPending(keys: seq<SessionKey>)
      modifies this`pending
      ensures pending == Insert(old(pending), keys)
    {
      for i := 0 to |keys|
        invariant pending == Insert(old(pending), keys[..i])
      {
        assert keys[..i + 1][..i] == keys[..i];
        pending := pending[keys[i].id := keys[i].bytes];
      }
      assert keys[..|keys|] == keys;
    }

    method RemovePending(keys: seq<SessionKey>)
      modifies this`pending
      ensures pending == old(pending) - Ids(keys)
    {
      for i := 0 to |keys|
        invariant pending == old(pending) - Ids(keys[..i])
      {
        IdsSnoc(keys, i);
        pending := pending - {keys[i].id};
      }
      assert keys[..|keys|] == keys;
    }

    static lemma IdsSnoc(keys: seq<SessionKey>, i: nat)
      requires i < |keys|
      ensures Ids(keys[..i + 1]) == Ids(keys[..i]) + {keys[i].id}
    {
      var a, b := keys[..i], keys[..i + 1];
      forall x | x in Ids(b) ensures x in Ids(a) + {keys[i].id} {
        var k :| 0 <= k < |b| && b[k].id == x;
        if k < i { assert a[k].id == x; }
      }
      forall x | x in Ids(a) ensures x in Ids(b) {
        var k :| 0 <= k < |a| && a[k].id == x;
        assert b[k].id == x;
      }
      assert b[i].id in Ids(b);
    }

    method Reachable(groups: seq<Group>, reachable: set<Text>) returns (ok: bool)
      ensures ok <==> forall i :: 0 <= i < |groups| ==> groups[i].peer in reachable
    {
      for i := 0 to |groups|
        invariant forall k :: 0 <= k < i ==> groups[k].peer in reachable
      {
        if groups[i].peer !in reachable { return false; }
      }
      return true;
    }

    method CountFailed(groups: seq<Group>, failed: set<Text>) returns (n: nat)
      ensures n == FailedOf(groups, failed)
    {
      n := 0;
      for i := 0 to |groups|
        invariant n == FailedOf(groups[..i], failed)
      {
        assert groups[..i + 1][..i] == groups[..i];
        if groups[i].peer in failed { n := n + 1; }
      }
      assert groups[..|groups|] == groups;
    }

    /** Builds everything; if a peer cannot be reached, returns it all. */
    method SubmitAll(groups: seq<Group>, keys: seq<SessionKey>, reachable: set<Text>) returns (r: Result<seq<Sent>, Failure>)
      modifies this`pool
      ensures match Submit(old(pool), groups, keys, reachable)
              case Ready(left, sent) => r == Ok(sent) && pool == left
              case Aborted(left, why) => r == Err(why) && pool == left
    {
      r := PrepareAll(groups, keys);
      if r.Ok? {
        var ok := Reachable(groups, reachable);
        if !ok {
          ReturnAll(r.value);
          r := Err(NoRoute);
        }
      }
    }

    /** What was charged for so many peers comes back and no key of the request waits. */
    method TakeBack(r: Request, bytes: nat, peers: nat)
      modifies this`tokens, this`pending
      ensures tokens == Min(cfg.capacity, old(tokens) + Refund(bytes, r.number, peers, cfg.unit))
      ensures pending == old(pending) - Ids(r.keys)
    {
      tokens := Min(cfg.capacity, tokens + Refund(bytes, r.number, peers, cfg.unit));
      RemovePending(r.keys);
    }

    method HandleEncKeys(r: Request, reachable: set<Text>, failed: set<Text>) returns (out: Result<seq<SessionKey>, Denial>)
      modifies this`pool, this`tokens, this`pending, this`emitted
      ensures (View(), out) == Serve(cfg, old(View()), r, reachable, failed)
    {
      if !WithinLimits(r) { return Err(BadRequest); }
      var bytes := DivCeil(r.size, 8);
      var cost := Cost(bytes, r.number, |r.groups|, cfg.unit);
      if tokens < cost { return Err(RateLimited); }
      tokens := tokens - cost;
      if r.hasLocal { InsertPending(r.keys); }
      var sent := SubmitAll(r.groups, r.keys, reachable);
      if sent.Err? {
        TakeBack(r, bytes, |r.groups|);
        return Err(NotPrepared(sent.error));
      }
      emitted := emitted + sent.value;
      var down := CountFailed(r.groups, failed);
      if down > 0 {
        TakeBack(r, bytes, down);
        return Err(NotDelivered);
      }
      return Ok(r.keys);
    }
  }
}
