/** All the envelopes of one request, over the whole pool of queues. */
module EncKeysPool {
  import opened Bytes
  import opened EncKeysSpec

  type Pool = map<Text, Bufs>

  function Of(pool: Pool, p: Text): Bufs { if p in pool then pool[p] else Bufs([], []) }

  /** A session key wrapped with a pad for a peer. */
  datatype Sent = Sent(peer: Text, grade: Grade, pad: TKey, key: SessionKey)

  datatype Group = Group(peer: Text, prefs: seq<Grade>)

  function Tagged(peer: Text, taken: Taken, keys: seq<SessionKey>): (r: seq<Sent>)
    requires |taken| == |keys|
    ensures |r| == |keys|
  {
    if taken == [] then []
    else Tagged(peer, taken[..|taken| - 1], keys[..|keys| - 1])
         + [Sent(peer, taken[|taken| - 1].0, taken[|taken| - 1].1, keys[|keys| - 1])]
  }

  function GiveBackAll(pool: Pool, sent: seq<Sent>): Pool
    decreases |sent|
  {
    if sent == [] then pool else
    var x := sent[|sent| - 1];
    GiveBackAll(pool[x.peer := PushFront(Of(pool, x.peer), x.grade, x.pad)], sent[..|sent| - 1])
  }

  /** The pads of one queue, in the order they were used. */
  function SentOf(sent: seq<Sent>, p: Text, g: Grade): seq<TKey> {
    if sent == [] then [] else
    var x := sent[|sent| - 1];
    SentOf(sent[..|sent| - 1], p, g) + if x.peer == p && x.grade == g then [x.pad] else []
  }

  lemma {:induction false} GiveBackAllJoins(pool: Pool, sent: seq<Sent>, p: Text, g: Grade)
    ensures Of(GiveBackAll(pool, sent), p).Enc(g) == SentOf(sent, p, g) + Of(pool, p).Enc(g)
    decreases |sent|
  {
    if sent != [] {
      var x := sent[|sent| - 1];
      GiveBackAllJoins(pool[x.peer := PushFront(Of(pool, x.peer), x.grade, x.pad)], sent[..|sent| - 1], p, g);
    }
  }

  lemma {:induction false} SentOfAppend(a: seq<Sent>, b: seq<Sent>, p: Text, g: Grade)
    ensures SentOf(a + b, p, g) == SentOf(a, p, g) + SentOf(b, p, g)
  {
    if b == [] {
      assert a + b == a;
    } else {
      SentOfAppend(a, b[..|b| - 1], p, g);
      assert (a + b)[..|a + b| - 1] == a + b[..|b| - 1];
    }
  }

  lemma {:induction false} TaggedOf(peer: Text, taken: Taken, keys: seq<SessionKey>, p: Text, g: Grade)
    requires |taken| == |keys|
    ensures SentOf(Tagged(peer, taken, keys), p, g) == if p == peer then OfGrade(taken, g) else []
  {
    if taken != [] {
      TaggedOf(peer, taken[..|taken| - 1], keys[..|keys| - 1], p, g);
      var r := Tagged(peer, taken, keys);
      assert r[..|r| - 1] == Tagged(peer, taken[..|taken| - 1], keys[..|keys| - 1]);
    }
  }

  // ---- preparing a request ----

  datatype Prepared = Ready(pool: Pool, sent: seq<Sent>) | Aborted(left: Pool, why: Failure)

  function Prepare(pool: Pool, groups: seq<Group>, keys: seq<SessionKey>): Prepared {
    if groups == [] then Ready(pool, []) else
    match Prepare(pool, groups[..|groups| - 1], keys)
    case Aborted(left, why) => Aborted(left, why)
    case Ready(p1, sent) =>
      var peer, prefs := groups[|groups| - 1].peer, groups[|groups| - 1].prefs;
      BuildExact(Of(p1, peer), prefs, keys);
      match Build(Of(p1, peer), prefs, keys)
      case Built(b, taken) => Ready(p1[peer := b], sent + Tagged(peer, taken, keys))
      case Failed(left, why) => Aborted(GiveBackAll(p1[peer := left], sent), why)
  }

  /** Everything is built before anything is sent; a peer that cannot be reached by
      configuration takes it all back. */
  function Submit(pool: Pool, groups: seq<Group>, keys: seq<SessionKey>, reachable: set<Text>): Prepared {
    match Prepare(pool, groups, keys)
    case Aborted(left, why) => Aborted(left, why)
    case Ready(p1, sent) =>
      if forall i :: 0 <= i < |groups| ==> groups[i].peer in reachable then Ready(p1, sent)
      else Aborted(GiveBackAll(p1, sent), NoRoute)
  }

  /** Each queue is what was used of it followed by what is left. */
  ghost predicate Conserved(pool: Pool, left: Pool, sent: seq<Sent>) {
    forall p, g :: SentOf(sent, p, g) + Of(left, p).Enc(g) == Of(pool, p).Enc(g)
  }

  /** The queues are as they were, but that one of them may lack one pad that was too short. */
  ghost predicate Restored(pool: Pool, left: Pool, why: Failure) {
    exists q :: && (forall p :: p != q ==> Of(left, p) == Of(pool, p))
                && (Of(left, q) == Of(pool, q) || (why == KeyTooShort && LostShort(Of(pool, q), Of(left, q))))
  }

  lemma SameBufs(a: Bufs, b: Bufs)
    requires a.Enc(Qkd) == b.Enc(Qkd) && a.Enc(Pqc) == b.Enc(Pqc)
    ensures a == b
  {
  }

  lemma GiveBackAllConserved(pool: Pool, left: Pool, sent: seq<Sent>, p: Text)
    requires Conserved(pool, left, sent)
    ensures Of(GiveBackAll(left, sent), p) == Of(pool, p)
  {
    GiveBackAllJoins(left, sent, p, Qkd);
    GiveBackAllJoins(left, sent, p, Pqc);
    SameBufs(Of(GiveBackAll(left, sent), p), Of(pool, p));
  }

  lemma BuiltAt(p1: Pool, sent: seq<Sent>, peer: Text, b: Bufs, taken: Taken, keys: seq<SessionKey>, p: Text, g: Grade)
    requires GiveBack(b, taken) == Of(p1, peer) && |taken| == |keys|
    ensures SentOf(sent + Tagged(peer, taken, keys), p, g) + Of(p1[peer := b], p).Enc(g)
            == SentOf(sent, p, g) + Of(p1, p).Enc(g)
  {
    SentOfAppend(sent, Tagged(peer, taken, keys), p, g);
    TaggedOf(peer, taken, keys, p, g);
    GiveBackJoins(b, taken, g);
    Splice(SentOf(sent + Tagged(peer, taken, keys), p, g), SentOf(sent, p, g), SentOf(Tagged(peer, taken, keys), p, g),
           Of(p1[peer := b], p).Enc(g), Of(p1, p).Enc(g));
  }

  lemma Splice(all: seq<TKey>, a: seq<TKey>, b: seq<TKey>, c: seq<TKey>, bc: seq<TKey>)
    requires all == a + b && bc == b + c
    ensures all + c == a + bc
  {
  }

  lemma BuiltConserved(pool: Pool, p1: Pool, sent: seq<Sent>, peer: Text, b: Bufs, taken: Taken, keys: seq<SessionKey>)
    requires Conserved(pool, p1, sent) && GiveBack(b, taken) == Of(p1, peer) && |taken| == |keys|
    ensures Conserved(pool, p1[peer := b], sent + Tagged(peer, taken, keys))
  {
    forall p, g ensures SentOf(sent + Tagged(peer, taken, keys), p, g) + Of(p1[peer := b], p).Enc(g) == Of(pool, p).Enc(g) {
      BuiltAt(p1, sent, peer, b, taken, keys, p, g);
      assert SentOf(sent, p, g) + Of(p1, p).Enc(g) == Of(pool, p).Enc(g);
    }
  }

  lemma CutBehind(front: seq<TKey>, q: seq<TKey>, j: nat)
    requires j < |q|
    ensures var w, n := front + q, |front| + j;
            w[n] == q[j] && w[..n] + w[n + 1..] == front + (q[..j] + q[j + 1..])
  {
    var w, n := front + q, |front| + j;
    assert w[..n] == front + q[..j] && w[n + 1..] == q[j + 1..];
  }

  /** Dropping one pad behind what was used drops the same pad of the whole queue. */
  lemma LostShortBehind(whole: Bufs, b: Bufs, b': Bufs, whole': Bufs, qkd: seq<TKey>, pqc: seq<TKey>)
    requires LostShort(b, b')
    requires whole == Bufs(qkd + b.qkd, pqc + b.pqc) && whole' == Bufs(qkd + b'.qkd, pqc + b'.pqc)
    ensures LostShort(whole, whole')
  {
    var g, j :| 0 <= j < |b.Enc(g)| && |b.Enc(g)[j].bytes| < TRANSPORT_KEY_BYTES && b' == Without(b, g, j);
    var front := if g == Qkd then qkd else pqc;
    CutBehind(front, b.Enc(g), j);
    assert whole' == Without(whole, g, |front| + j);
  }

  lemma FailedRestored(pool: Pool, p1: Pool, sent: seq<Sent>, peer: Text, b: Bufs, why: Failure, keys: seq<SessionKey>)
    requires Conserved(pool, p1, sent) && RolledBack(Of(p1, peer), b, why, keys) && why != WrapTooShort
    ensures Restored(pool, GiveBackAll(p1[peer := b], sent), why)
  {
    var p2 := p1[peer := b];
    var left := GiveBackAll(p2, sent);
    forall p | p != peer ensures Of(left, p) == Of(pool, p) {
      GiveBackAllJoins(p2, sent, p, Qkd);
      GiveBackAllJoins(p2, sent, p, Pqc);
      assert SentOf(sent, p, Qkd) + Of(p1, p).Enc(Qkd) == Of(pool, p).Enc(Qkd);
      assert SentOf(sent, p, Pqc) + Of(p1, p).Enc(Pqc) == Of(pool, p).Enc(Pqc);
      SameBufs(Of(left, p), Of(pool, p));
    }
    GiveBackAllJoins(p2, sent, peer, Qkd);
    GiveBackAllJoins(p2, sent, peer, Pqc);
    assert SentOf(sent, peer, Qkd) + Of(p1, peer).Enc(Qkd) == Of(pool, peer).Enc(Qkd);
    assert SentOf(sent, peer, Pqc) + Of(p1, peer).Enc(Pqc) == Of(pool, peer).Enc(Pqc);
    if why == KeyTooShort {
      LostShortBehind(Of(pool, peer), Of(p1, peer), b, Of(left, peer), SentOf(sent, peer, Qkd), SentOf(sent, peer, Pqc));
    } else {
      SameBufs(Of(left, peer), Of(pool, peer));
    }
  }

  /** Preparing takes from each queue what it will send, in order, or leaves them as they were,
      less at most one pad that was too short; keys of up to 32 bytes never lose any other. */
  lemma {:induction false} PrepareExact(pool: Pool, groups: seq<Group>, keys: seq<SessionKey>)
    ensures match Prepare(pool, groups, keys)
            case Ready(left, sent) => Conserved(pool, left, sent)
            case Aborted(left, why) => if why == WrapTooShort then Oversize(keys) else Restored(pool, left, why)
  {
    if groups != [] {
      PrepareExact(pool, groups[..|groups| - 1], keys);
      match Prepare(pool, groups[..|groups| - 1], keys)
      case Aborted(_, _) =>
      case Ready(p1, sent) =>
        var peer, prefs := groups[|groups| - 1].peer, groups[|groups| - 1].prefs;
        BuildExact(Of(p1, peer), prefs, keys);
        match Build(Of(p1, peer), prefs, keys)
        case Built(b, taken) => BuiltConserved(pool, p1, sent, peer, b, taken, keys);
        case Failed(b, why) => if why != WrapTooShort { FailedRestored(pool, p1, sent, peer, b, why, keys); }
    }
  }

  lemma SubmitExact(pool: Pool, groups: seq<Group>, keys: seq<SessionKey>, reachable: set<Text>)
    ensures match Submit(pool, groups, keys, reachable)
            case Ready(left, sent) => Conserved(pool, left, sent)
            case Aborted(left, why) => if why == WrapTooShort then Oversize(keys) else Restored(pool, left, why)
  {
    PrepareExact(pool, groups, keys);
    match Prepare(pool, groups, keys)
    case Aborted(_, _) =>
    case Ready(p1, sent) =>
      forall p ensures Of(GiveBackAll(p1, sent), p) == Of(pool, p) { GiveBackAllConserved(pool, p1, sent, p); }
      assert Restored(pool, GiveBackAll(p1, sent), NoRoute) by {
        assert Of(GiveBackAll(p1, sent), []) == Of(pool, []);
      }
  }
}
