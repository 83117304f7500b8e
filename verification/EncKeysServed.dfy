/** What a request gets, read off the request, the tokens and the queues alone. */
module EncKeysServed {
  import opened Wrappers
  import opened Bytes
  import opened EncKeysSpec
  import opened EncKeysPool
  import opened EncKeysRuns

  // ---- one peer ----

  function Marked(g: Grade, q: seq<TKey>): Taken { seq(|q|, i requires 0 <= i < |q| => (g, q[i])) }

  /** The pads of a peer in the order they are to be used: all of the grade preferred first,
      then all of the next. */
  function Lined(b: Bufs, prefs: seq<Grade>): Taken
    decreases |prefs|
  {
    if prefs == [] then [] else Marked(prefs[0], b.Enc(prefs[0])) + Lined(b.With(prefs[0], []), prefs[1..])
  }

  lemma MarkedFirst(g: Grade, q: seq<TKey>)
    requires q != []
    ensures Marked(g, q) == [(g, q[0])] + Marked(g, q[1..])
  {
  }

  /** Each pop takes the first of the line. */
  lemma {:induction false} PopLined(b: Bufs, prefs: seq<Grade>)
    ensures match PopPref(b, prefs)
            case None => Lined(b, prefs) == []
            case Some((g, k, b')) => Lined(b, prefs) == [(g, k)] + Lined(b', prefs)
  {
    if prefs != [] {
      var g, rest := prefs[0], prefs[1..];
      var q := b.Enc(g);
      if q != [] {
        var b' := b.With(g, q[1..]);
        assert b'.With(g, []) == b.With(g, []) && b'.Enc(g) == q[1..];
        MarkedFirst(g, q);
        assert Lined(b, prefs) == [(g, q[0])] + Marked(g, q[1..]) + Lined(b.With(g, []), rest);
      } else {
        assert b.With(g, []) == b && Marked(g, q) == [];
        PopLined(b, rest);
        if PopPref(b, rest).Some? { PopKeeps(b, rest, g); }
      }
    }
  }

  /** A queue that is empty stays so. */
  lemma {:induction false} PopKeeps(b: Bufs, prefs: seq<Grade>, g: Grade)
    requires PopPref(b, prefs).Some? && b.Enc(g) == []
    ensures PopPref(b, prefs).value.2.Enc(g) == [] && PopPref(b, prefs).value.2.With(g, []) == PopPref(b, prefs).value.2
    ensures Marked(g, []) == []
  {
    if b.Enc(prefs[0]) == [] { PopKeeps(b, prefs[1..], g); }
  }

  /** Long enough for any session key, and for this one. */
  predicate Fits(pad: TKey, key: SessionKey) { |pad.bytes| >= TRANSPORT_KEY_BYTES && |pad.bytes| >= |key.bytes| }

  predicate Enough(line: Taken, keys: seq<SessionKey>) {
    |line| >= |keys| && forall i :: 0 <= i < |keys| ==> Fits(line[i].1, keys[i])
  }

  /** Place of the first key that cannot be served. */
  ghost predicate FailsAt(line: Taken, keys: seq<SessionKey>, i: nat) {
    && i < |keys| && Enough(line, keys[..i]) && (i < |line| ==> !Fits(line[i].1, keys[i]))
  }

  ghost predicate Why(line: Taken, keys: seq<SessionKey>, i: nat, why: Failure)
    requires i < |keys|
  {
    why == if i >= |line| then BufferEmpty else if |line[i].1.bytes| < TRANSPORT_KEY_BYTES then KeyTooShort else WrapTooShort
  }

  ghost predicate BuiltFrom(line: Taken, prefs: seq<Grade>, keys: seq<SessionKey>, out: BuildOutcome) {
    match out
    case Built(b', taken) => Enough(line, keys) && taken == line[..|keys|] && Lined(b', prefs) == line[|keys|..]
    case Failed(_, why) => exists i :: FailsAt(line, keys, i) && Why(line, keys, i, why)
  }

  lemma LineNext(line: Taken, n: nat, x: (Grade, TKey), rest: Taken)
    requires n <= |line| && line[n..] == [x] + rest
    ensures n < |line| && line[n] == x && line[n + 1..] == rest && line[..n + 1] == line[..n] + [x]
  {
    assert line[n] == line[n..][0] && line[n + 1..] == line[n..][1..];
  }

  lemma EnoughNext(line: Taken, keys: seq<SessionKey>, n: nat)
    requires n < |keys| && n < |line| && Enough(line, keys[..n]) && Fits(line[n].1, keys[n])
    ensures Enough(line, keys[..n + 1])
  {
    assert forall i :: 0 <= i < n ==> keys[..n][i] == keys[..n + 1][i];
  }

  lemma FailedFrom(line: Taken, prefs: seq<Grade>, keys: seq<SessionKey>, i: nat, left: Bufs, why: Failure)
    requires FailsAt(line, keys, i) && Why(line, keys, i, why)
    ensures BuiltFrom(line, prefs, keys, Failed(left, why))
  {
  }

  lemma {:induction false} BuildNext(b: Bufs, prefs: seq<Grade>, keys: seq<SessionKey>, line: Taken)
    requires keys != [] && line == Lined(b, prefs) && Build(b, prefs, keys[..|keys| - 1]).Built?
    requires BuiltFrom(line, prefs, keys[..|keys| - 1], Build(b, prefs, keys[..|keys| - 1]))
    ensures BuiltFrom(line, prefs, keys, Build(b, prefs, keys))
  {
    var n := |keys| - 1;
    var b1, taken := Build(b, prefs, keys[..n]).bufs, Build(b, prefs, keys[..n]).taken;
    PopLined(b1, prefs);
    match PopPref(b1, prefs)
    case None => FailedFrom(line, prefs, keys, n, GiveBack(b1, taken), BufferEmpty);
    case Some((g, k, b2)) =>
      LineNext(line, n, (g, k), Lined(b2, prefs));
      if Fits(k, keys[n]) {
        EnoughNext(line, keys, n);
        assert keys[..n + 1] == keys;
      } else {
        FailedFrom(line, prefs, keys, n, Build(b, prefs, keys).left, Build(b, prefs, keys).why);
      }
  }

  lemma FailsLater(line: Taken, keys: seq<SessionKey>, i: nat, why: Failure)
    requires keys != [] && FailsAt(line, keys[..|keys| - 1], i) && Why(line, keys[..|keys| - 1], i, why)
    ensures FailsAt(line, keys, i) && Why(line, keys, i, why)
  {
    assert keys[..|keys| - 1][..i] == keys[..i];
  }

  /**
   One peer's envelope: it is built exactly if the line has a long enough pad for every session
   key, and then with the first of the line in order; otherwise the reason is that of the first
   key that cannot be served.
   */
  lemma {:induction false} BuildLined(b: Bufs, prefs: seq<Grade>, keys: seq<SessionKey>)
    ensures BuiltFrom(Lined(b, prefs), prefs, keys, Build(b, prefs, keys))
  {
    var line := Lined(b, prefs);
    if keys == [] {
      assert line[0..] == line;
    } else {
      BuildLined(b, prefs, keys[..|keys| - 1]);
      match Build(b, prefs, keys[..|keys| - 1])
      case Built(_, _) => BuildNext(b, prefs, keys, line);
      case Failed(_, why) =>
        var i :| FailsAt(line, keys[..|keys| - 1], i) && Why(line, keys[..|keys| - 1], i, why);
        FailsLater(line, keys, i, why);
    }
  }

  lemma FailedNotEnough(line: Taken, keys: seq<SessionKey>, i: nat)
    requires FailsAt(line, keys, i)
    ensures !Enough(line, keys)
  {
  }

  lemma BuiltExactly(b: Bufs, prefs: seq<Grade>, keys: seq<SessionKey>)
    ensures Build(b, prefs, keys).Built? <==> Enough(Lined(b, prefs), keys)
  {
    BuildLined(b, prefs, keys);
    if Build(b, prefs, keys).Failed? {
      var i :| FailsAt(Lined(b, prefs), keys, i) && Why(Lined(b, prefs), keys, i, Build(b, prefs, keys).why);
      FailedNotEnough(Lined(b, prefs), keys, i);
    }
  }

  // ---- all peers ----

  /** Destinations are grouped by peer. */
  ghost predicate Grouped(groups: seq<Group>) {
    forall i, j :: 0 <= i < j < |groups| ==> groups[i].peer != groups[j].peer
  }

  function LineOf(pool: Pool, group: Group): Taken { Lined(Of(pool, group.peer), group.prefs) }

  ghost predicate AllEnough(pool: Pool, groups: seq<Group>, keys: seq<SessionKey>) {
    forall i :: 0 <= i < |groups| ==> Enough(LineOf(pool, groups[i]), keys)
  }

  /** From place `at` on, each session key for the peer under the next pad of the line. */
  ghost predicate Envelope(sent: seq<Sent>, at: nat, group: Group, line: Taken, keys: seq<SessionKey>) {
    && at + |keys| <= |sent| && |keys| <= |line|
    && forall j :: 0 <= j < |keys| ==> sent[at + j] == Sent(group.peer, line[j].0, line[j].1, keys[j])
  }

  /** Where envelope `i` of `k` keys each begins. */
  function Place(i: nat, k: nat): nat { if i == 0 then 0 else Place(i - 1, k) + k }

  lemma {:induction false} PlaceIs(i: nat, k: nat)
    ensures Place(i, k) == i * k
  {
    if i > 0 {
      PlaceIs(i - 1, k);
      assert i * k == (i - 1) * k + k;
    }
  }

  /** One envelope after the other. */
  ghost predicate Envelopes(sent: seq<Sent>, pool: Pool, groups: seq<Group>, keys: seq<SessionKey>) {
    && |sent| == Place(|groups|, |keys|)
    && forall i :: 0 <= i < |groups| ==> Envelope(sent, Place(i, |keys|), groups[i], LineOf(pool, groups[i]), keys)
  }

  lemma {:induction false} TaggedAt(peer: Text, taken: Taken, keys: seq<SessionKey>, j: nat)
    requires |taken| == |keys| && j < |keys|
    ensures Tagged(peer, taken, keys)[j] == Sent(peer, taken[j].0, taken[j].1, keys[j])
  {
    var n := |keys| - 1;
    if j < n { TaggedAt(peer, taken[..n], keys[..n], j); }
  }

  lemma TaggedEnvelope(sent: seq<Sent>, group: Group, line: Taken, keys: seq<SessionKey>)
    requires |keys| <= |line|
    ensures Envelope(sent + Tagged(group.peer, line[..|keys|], keys), |sent|, group, line, keys)
  {
    var tagged := Tagged(group.peer, line[..|keys|], keys);
    forall j | 0 <= j < |keys| ensures (sent + tagged)[|sent| + j] == Sent(group.peer, line[j].0, line[j].1, keys[j]) {
      TaggedAt(group.peer, line[..|keys|], keys, j);
    }
  }

  lemma EnvelopeStays(sent: seq<Sent>, more: seq<Sent>, at: nat, group: Group, line: Taken, keys: seq<SessionKey>)
    requires Envelope(sent, at, group, line, keys)
    ensures Envelope(sent + more, at, group, line, keys)
  {
  }

  lemma {:induction false} MoreEnvelopes(sent: seq<Sent>, pool: Pool, groups: seq<Group>, keys: seq<SessionKey>)
    requires groups != [] && Envelopes(sent, pool, groups[..|groups| - 1], keys)
    requires |keys| <= |LineOf(pool, groups[|groups| - 1])|
    ensures var g := groups[|groups| - 1];
            Envelopes(sent + Tagged(g.peer, LineOf(pool, g)[..|keys|], keys), pool, groups, keys)
  {
    var n := |groups| - 1;
    var g, init := groups[n], groups[..n];
    var tagged := Tagged(g.peer, LineOf(pool, g)[..|keys|], keys);
    TaggedEnvelope(sent, g, LineOf(pool, g), keys);
    forall i | 0 <= i < |groups| ensures Envelope(sent + tagged, Place(i, |keys|), groups[i], LineOf(pool, groups[i]), keys) {
      if i < n {
        assert init[i] == groups[i];
        EnvelopeStays(sent, tagged, Place(i, |keys|), groups[i], LineOf(pool, groups[i]), keys);
      }
    }
  }

  /** Peers that no group names keep their queues. */
  ghost predicate OthersKept(pool: Pool, left: Pool, groups: seq<Group>) {
    forall p :: (forall i :: 0 <= i < |groups| ==> groups[i].peer != p) ==> Of(left, p) == Of(pool, p)
  }

  lemma OthersMore(pool: Pool, left: Pool, groups: seq<Group>, b: Bufs)
    requires groups != [] && OthersKept(pool, left, groups[..|groups| - 1])
    ensures OthersKept(pool, left[groups[|groups| - 1].peer := b], groups)
  {
    var n := |groups| - 1;
    var left' := left[groups[n].peer := b];
    forall p | forall i :: 0 <= i < |groups| ==> groups[i].peer != p ensures Of(left', p) == Of(pool, p) {
      assert groups[n].peer != p;
      assert forall i :: 0 <= i < n ==> groups[..n][i].peer != p;
    }
  }

  /** The reason is that of the first peer that has not enough. */
  ghost predicate WhyAt(pool: Pool, groups: seq<Group>, keys: seq<SessionKey>, i: nat, why: Failure) {
    && i < |groups| && AllEnough(pool, groups[..i], keys)
    && exists k :: FailsAt(LineOf(pool, groups[i]), keys, k) && Why(LineOf(pool, groups[i]), keys, k, why)
  }

  ghost predicate PreparedFrom(pool: Pool, groups: seq<Group>, keys: seq<SessionKey>, out: Prepared) {
    && (out.Ready? <==> AllEnough(pool, groups, keys))
    && (out.Ready? ==> Envelopes(out.sent, pool, groups, keys) && OthersKept(pool, out.pool, groups))
    && (out.Aborted? ==> exists i :: WhyAt(pool, groups, keys, i, out.why))
  }

  lemma PrepareNext(pool: Pool, groups: seq<Group>, keys: seq<SessionKey>)
    requires groups != [] && Grouped(groups) && PreparedFrom(pool, groups[..|groups| - 1], keys, Prepare(pool, groups[..|groups| - 1], keys))
    requires Prepare(pool, groups[..|groups| - 1], keys).Ready?
    ensures PreparedFrom(pool, groups, keys, Prepare(pool, groups, keys))
  {
    var n := |groups| - 1;
    var g, init := groups[n], groups[..n];
    var p1, sent := Prepare(pool, init, keys).pool, Prepare(pool, init, keys).sent;
    assert forall i :: 0 <= i < n ==> init[i] == groups[i];
    assert Of(p1, g.peer) == Of(pool, g.peer);
    BuiltExactly(Of(pool, g.peer), g.prefs, keys);
    EnoughSnoc(pool, groups, keys);
    BuildLined(Of(pool, g.peer), g.prefs, keys);
    if Build(Of(pool, g.peer), g.prefs, keys).Failed? {
      assert WhyAt(pool, groups, keys, n, Build(Of(pool, g.peer), g.prefs, keys).why);
    } else {
      MoreEnvelopes(sent, pool, groups, keys);
      OthersMore(pool, p1, groups, Build(Of(pool, g.peer), g.prefs, keys).bufs);
    }
  }

  lemma EnoughSnoc(pool: Pool, groups: seq<Group>, keys: seq<SessionKey>)
    requires groups != []
    ensures var n := |groups| - 1;
            AllEnough(pool, groups, keys) <==> AllEnough(pool, groups[..n], keys) && Enough(LineOf(pool, groups[n]), keys)
  {
    var n := |groups| - 1;
    assert forall i :: 0 <= i < n ==> groups[..n][i] == groups[i];
  }

  lemma WhyStays(pool: Pool, groups: seq<Group>, keys: seq<SessionKey>, i: nat, why: Failure)
    requires groups != [] && WhyAt(pool, groups[..|groups| - 1], keys, i, why)
    ensures WhyAt(pool, groups, keys, i, why)
  {
    assert groups[..|groups| - 1][..i] == groups[..i];
  }

  /** A request can be prepared exactly if every peer has enough pads in line, and then one
      envelope after the other takes them in order. */
  lemma {:induction false} PrepareLined(pool: Pool, groups: seq<Group>, keys: seq<SessionKey>)
    requires Grouped(groups)
    ensures PreparedFrom(pool, groups, keys, Prepare(pool, groups, keys))
  {
    if groups != [] {
      PrepareLined(pool, groups[..|groups| - 1], keys);
      if Prepare(pool, groups[..|groups| - 1], keys).Ready? {
        PrepareNext(pool, groups, keys);
      } else {
        EnoughSnoc(pool, groups, keys);
        var why := Prepare(pool, groups[..|groups| - 1], keys).why;
        var i :| WhyAt(pool, groups[..|groups| - 1], keys, i, why);
        WhyStays(pool, groups, keys, i, why);
      }
    }
  }

  // ---- the request ----

  function CeilDiv(a: nat, b: nat): nat
    requires b > 0
  {
    (a + b - 1) / b
  }

  /** Units of key material for one peer, times keys, times peers (at least one). */
  function Price(unit: nat, size: nat, number: nat, peers: nat): nat {
    CeilDiv(CeilDiv(size, 8), if unit == 0 then 1 else unit) * number * if peers == 0 then 1 else peers
  }

  ghost predicate Allowed(r: Request) {
    r.number <= 64 && r.size % 8 == 0 && 64 <= r.size <= 256 && r.saes <= 16
  }

  lemma CeilDivIs(a: nat, b: nat)
    requires b > 0
    ensures DivCeil(a, b) == CeilDiv(a, b)
  {
    var q, m := a / b, a % b;
    assert a == b * q + m;
    if m == 0 {
      DivIs(a + b - 1, b, q, b - 1);
    } else {
      assert b * (q + 1) == b * q + b;
      DivIs(a + b - 1, b, q + 1, m - 1);
    }
  }

  lemma DivIs(a: nat, b: nat, q: nat, m: nat)
    requires b > 0 && a == b * q + m && m < b
    ensures a / b == q
  {
    var p := a / b;
    assert a == b * p + a % b;
    if p > q {
      MulMono(q + 1, p, b);
    } else if p < q {
      MulMono(p + 1, q, b);
    }
  }

  /** Within the limits the cost is the price. */
  lemma CostIsPrice(unit: nat, size: nat, number: nat, peers: nat)
    requires size <= 256 && number <= 64 && peers <= 16
    ensures Cost(DivCeil(size, 8), number, peers, unit) == Price(unit, size, number, peers)
  {
    var bytes, u := DivCeil(size, 8), if unit == 0 then 1 else unit;
    CeilDivIs(size, 8);
    CeilDivIs(bytes, u);
    DivCeilAtMost(bytes, u);
    var per := DivCeil(bytes, u);
    MulMono(per, 32, number);
    MulMono(per * number, 32 * 64, if peers == 0 then 1 else peers);
  }

  ghost predicate AllReachable(groups: seq<Group>, reachable: set<Text>) {
    forall i :: 0 <= i < |groups| ==> groups[i].peer in reachable
  }

  ghost predicate NoneFails(groups: seq<Group>, failed: set<Text>) {
    forall i :: 0 <= i < |groups| ==> groups[i].peer !in failed
  }

  lemma {:induction false} FailedNone(groups: seq<Group>, failed: set<Text>)
    ensures FailedOf(groups, failed) == 0 <==> NoneFails(groups, failed)
  {
    if groups != [] {
      var n := |groups| - 1;
      FailedNone(groups[..n], failed);
      assert forall i :: 0 <= i < n ==> groups[..n][i] == groups[i];
    }
  }

  datatype Verdict = NotAllowed | TooDear | TooFewPads | Unreachable | SendFails | Served

  /** What decides a request, in the order it is looked at. */
  ghost function Judged(c: Cfg, n: Node, r: Request, reachable: set<Text>, failed: set<Text>): Verdict {
    if !Allowed(r) then NotAllowed
    else if n.tokens < Price(c.unit, r.size, r.number, |r.groups|) then TooDear
    else if !AllEnough(n.pool, r.groups, r.keys) then TooFewPads
    else if !AllReachable(r.groups, reachable) then Unreachable
    else if !NoneFails(r.groups, failed) then SendFails
    else Served
  }

  /**
   How a request ends: it is served exactly if the limits hold, there are tokens for its price,
   every peer has enough pads in line, every peer is reachable and no send fails; otherwise the
   answer names the first of these that is missing.
   */
  lemma ServedExactly(c: Cfg, n: Node, r: Request, reachable: set<Text>, failed: set<Text>)
    requires Grouped(r.groups) && |r.groups| <= r.saes
    ensures var out := Serve(c, n, r, reachable, failed).1;
            match Judged(c, n, r, reachable, failed)
            case NotAllowed => out == Err(BadRequest)
            case TooDear => out == Err(RateLimited)
            case TooFewPads =>
              out.Err? && out.error.NotPrepared? && exists i :: WhyAt(n.pool, r.groups, r.keys, i, out.error.why)
            case Unreachable => out == Err(NotPrepared(NoRoute))
            case SendFails => out == Err(NotDelivered)
            case Served => out == Ok(r.keys)
  {
    if Allowed(r) {
      CostIsPrice(c.unit, r.size, r.number, |r.groups|);
      PrepareLined(n.pool, r.groups, r.keys);
      FailedNone(r.groups, failed);
    }
  }

  /** A request refused before it is charged changes nothing. */
  lemma RefusedUnchanged(c: Cfg, n: Node, r: Request, reachable: set<Text>, failed: set<Text>)
    requires |r.groups| <= r.saes && (Judged(c, n, r, reachable, failed).NotAllowed? || Judged(c, n, r, reachable, failed).TooDear?)
    ensures Serve(c, n, r, reachable, failed).0 == n
  {
    if Allowed(r) { CostIsPrice(c.unit, r.size, r.number, |r.groups|); }
  }

  lemma SubmitSends(pool: Pool, groups: seq<Group>, keys: seq<SessionKey>, reachable: set<Text>)
    requires Grouped(groups) && AllEnough(pool, groups, keys) && AllReachable(groups, reachable)
    ensures var out := Submit(pool, groups, keys, reachable);
            && out.Ready? && |out.sent| == |groups| * |keys|
            && Envelopes(out.sent, pool, groups, keys) && OthersKept(pool, out.pool, groups)
  {
    PrepareLined(pool, groups, keys);
    PlaceIs(|groups|, |keys|);
  }

  lemma ServeReady(c: Cfg, n: Node, r: Request, reachable: set<Text>, failed: set<Text>)
    requires WithinLimits(r) && n.tokens >= Cost(DivCeil(r.size, 8), r.number, |r.groups|, c.unit)
    requires Submit(n.pool, r.groups, r.keys, reachable).Ready?
    ensures var n', out := Serve(c, n, r, reachable, failed).0, Submit(n.pool, r.groups, r.keys, reachable);
            n'.emitted == n.emitted + out.sent && n'.pool == out.pool && n'.home == n.home
  {
  }

  lemma Appended(a: seq<Sent>, b: seq<Sent>, c: seq<Sent>)
    requires c == a + b
    ensures a <= c && c[|a|..] == b
  {
  }

  /** Once sending starts, one envelope per peer goes out, each session key under its own pad. */
  lemma ServedSends(c: Cfg, n: Node, r: Request, reachable: set<Text>, failed: set<Text>)
    requires Grouped(r.groups) && |r.groups| <= r.saes
    requires Judged(c, n, r, reachable, failed).SendFails? || Judged(c, n, r, reachable, failed).Served?
    ensures var n' := Serve(c, n, r, reachable, failed).0; var m := |n.emitted|;
            && n.emitted <= n'.emitted && |n'.emitted| == m + |r.groups| * |r.keys|
            && Envelopes(n'.emitted[m..], n.pool, r.groups, r.keys)
            && n'.home == n.home && OthersKept(n.pool, n'.pool, r.groups)
  {
    CostIsPrice(c.unit, r.size, r.number, |r.groups|);
    SubmitSends(n.pool, r.groups, r.keys, reachable);
    ServeReady(c, n, r, reachable, failed);
    Appended(n.emitted, Submit(n.pool, r.groups, r.keys, reachable).sent, Serve(c, n, r, reachable, failed).0.emitted);
  }

  /** The places of the peers whose send came back well. */
  ghost function Reached(groups: seq<Group>, failed: set<Text>): set<nat> {
    set i: nat | i < |groups| && groups[i].peer !in failed
  }

  lemma {:induction false} ReachedCount(groups: seq<Group>, failed: set<Text>)
    ensures |Reached(groups, failed)| + FailedOf(groups, failed) == |groups|
  {
    if groups == [] {
      assert Reached(groups, failed) == {};
    } else {
      var n := |groups| - 1;
      ReachedCount(groups[..n], failed);
      assert forall i :: 0 <= i < n ==> groups[..n][i] == groups[i];
      if groups[n].peer in failed {
        assert Reached(groups, failed) == Reached(groups[..n], failed);
      } else {
        assert Reached(groups, failed) == Reached(groups[..n], failed) + {n};
      }
    }
  }

  /** A request whose sends fail pays for the peers that were reached, and no key of it waits. */
  lemma PartlyServed(c: Cfg, n: Node, r: Request, reachable: set<Text>, failed: set<Text>)
    requires Drawn(n, r) && n.tokens <= c.capacity && Grouped(r.groups) && Judged(c, n, r, reachable, failed).SendFails?
    ensures var n' := Serve(c, n, r, reachable, failed).0;
            && n'.tokens + Price(c.unit, r.size, r.number, 1) * |Reached(r.groups, failed)| == n.tokens
            && n'.pending == n.pending
  {
    ServedExactly(c, n, r, reachable, failed);
    PartialCharge(c, n, r, reachable, failed);
    CostIsPrice(c.unit, r.size, r.number, 1);
    ReachedCount(r.groups, failed);
  }

  /** No later key of the request has the id. */
  ghost predicate LastOfId(keys: seq<SessionKey>, i: nat)
    requires i < |keys|
  {
    forall j :: i < j < |keys| ==> keys[j].id != keys[i].id
  }

  ghost predicate Named(keys: seq<SessionKey>, id: Text) { exists i :: 0 <= i < |keys| && keys[i].id == id }

  /** The keys are added under their ids, and nothing else changes. */
  ghost predicate Gained(before: map<Text, seq<byte>>, after: map<Text, seq<byte>>, keys: seq<SessionKey>) {
    && (forall i :: 0 <= i < |keys| && LastOfId(keys, i) ==> keys[i].id in after && after[keys[i].id] == keys[i].bytes)
    && (forall id :: !Named(keys, id) ==> (id in after <==> id in before))
    && (forall id :: !Named(keys, id) && id in before ==> id in after && after[id] == before[id])
  }

  lemma NamedSnoc(keys: seq<SessionKey>, id: Text)
    requires keys != []
    ensures Named(keys, id) <==> Named(keys[..|keys| - 1], id) || keys[|keys| - 1].id == id
  {
    var n := |keys| - 1;
    assert forall i :: 0 <= i < n ==> keys[..n][i] == keys[i];
  }

  lemma LastStays(keys: seq<SessionKey>, i: nat)
    requires i < |keys| - 1 && LastOfId(keys, i)
    ensures LastOfId(keys[..|keys| - 1], i) && keys[|keys| - 1].id != keys[i].id
  {
  }

  lemma GainedNext(before: map<Text, seq<byte>>, m: map<Text, seq<byte>>, keys: seq<SessionKey>)
    requires keys != [] && Gained(before, m, keys[..|keys| - 1])
    ensures Gained(before, m[keys[|keys| - 1].id := keys[|keys| - 1].bytes], keys)
  {
    var n := |keys| - 1;
    var after := m[keys[n].id := keys[n].bytes];
    forall i | 0 <= i < |keys| && LastOfId(keys, i) ensures keys[i].id in after && after[keys[i].id] == keys[i].bytes {
      if i < n {
        LastStays(keys, i);
        assert keys[..n][i] == keys[i];
      }
    }
    forall id | !Named(keys, id) ensures (id in after <==> id in before) && (id in before ==> after[id] == before[id]) {
      NamedSnoc(keys, id);
    }
  }

  lemma {:induction false} InsertGains(pending: map<Text, seq<byte>>, keys: seq<SessionKey>)
    ensures Gained(pending, Insert(pending, keys), keys)
  {
    if keys != [] {
      InsertGains(pending, keys[..|keys| - 1]);
      GainedNext(pending, Insert(pending, keys[..|keys| - 1]), keys);
    }
  }

  /**
   A request that is served answers with its session keys, costs its price, and leaves the keys
   for local SAEs if there are any, with nothing else changed.
   */
  lemma ServedGets(c: Cfg, n: Node, r: Request, reachable: set<Text>, failed: set<Text>)
    requires Grouped(r.groups) && |r.groups| <= r.saes && Judged(c, n, r, reachable, failed).Served?
    ensures var (n', out) := Serve(c, n, r, reachable, failed);
            && out == Ok(r.keys)
            && n'.tokens + Price(c.unit, r.size, r.number, |r.groups|) == n.tokens
            && (if r.hasLocal then Gained(n.pending, n'.pending, r.keys) else n'.pending == n.pending)
  {
    ServedExactly(c, n, r, reachable, failed);
    CostIsPrice(c.unit, r.size, r.number, |r.groups|);
    InsertGains(n.pending, r.keys);
  }
}
