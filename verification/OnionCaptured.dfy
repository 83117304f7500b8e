/**
 A layer presented again. The hop finds the secret under the origin's name in lower case and
 the anti-replay window under the name as it is spelled (orr/src/service.rs,
 `handle_onion_in`; orr/src/onion_replay.rs); the name is not among the fields a layer is
 bound to.
 */
module OnionCaptured {
  import opened Bytes
  import opened ReplaySpec
  import opened ReplayHistory
  import opened OnionSpec
  import opened Onion
  import opened Widths

  /** The hop a frame reaches opens it and finds it fresh. */
  predicate Taken(net: Net, ws: Windows, f: Frame)
    requires -I32_MAX - 1 <= f.hops <= I32_MAX
  {
    var k := net.Under(f.next, f.from, f.epoch);
    && k in net.keys && Peel(net.keys[k], f.Clear(), f.ct, f.tag).Ok?
    && Accepts(WindowOf(ws, f.next, f.from), f.session, f.counter)
  }

  /** A frame that is not taken ends its journey there. */
  lemma NotTakenEnds(net: Net, ws: Windows, f: Frame)
    requires -I32_MAX - 1 <= f.hops <= I32_MAX && !Taken(net, ws, f)
    ensures var j := Travel(net, ws, f).0; |j.visits| == 1 && (j.end.NoSecret? || j.end.BadLayer? || j.end.Refused?)
  {
  }

  /** The message with the origin's name spelled another way. */
  function Respelled(m: Msg, from: Text): Msg { m.(from := from) }

  /** Nothing that is sealed depends on the name. */
  lemma {:induction false} SameLayer(path: seq<Hop>, kids: seq<Text>, m: Msg, from: Text, i: nat)
    requires i < |path| == |kids|
    ensures PlainAt(path, kids, Respelled(m, from), i) == PlainAt(path, kids, m, i)
    ensures LayerAt(path, kids, Respelled(m, from), i) == LayerAt(path, kids, m, i)
    decreases |path| - i
  {
    if i < |path| - 1 { SameLayer(path, kids, m, from, i + 1); }
  }

  lemma RespelledFrame(path: seq<Hop>, kids: seq<Text>, m: Msg, from: Text, i: nat)
    requires i < |path| == |kids|
    ensures FrameAt(path, kids, Respelled(m, from), i) == FrameAt(path, kids, m, i).(from := from)
  {
    SameLayer(path, kids, m, from, i);
  }

  /**
   Whatever is presented to hop `i` with the tag of its layer, whoever altered it on the way, is
   taken exactly when it is that frame with nothing changed but the spelling of the origin,
   that spelling leads to the secret the layer was sealed under, and the window kept under that
   spelling accepts the pair.
   */
  lemma PresentedTaken(net: Net, ws: Windows, path: seq<Hop>, kids: seq<Text>, m: Msg, i: nat, g: Frame)
    requires ValidPath(path, kids, m) && i < |path| && g.Clear().Valid()
    requires g.next == path[i].id && g.tag == LayerAt(path, kids, m, i).1
    ensures Taken(net, ws, g) <==>
            && g == FrameAt(path, kids, m, i).(from := g.from)
            && Knows(net, path, Respelled(m, g.from), i) && Fresher(ws, path, Respelled(m, g.from), i)
  {
    var k := net.Under(g.next, g.from, g.epoch);
    if k in net.keys { LayerBound(path, kids, m, i, net.keys[k], g.Clear(), g.ct); }
    assert CtxAt(path, kids, m, i) == FrameAt(path, kids, m, i).Clear();
  }

  /** Taken or not, it is delivered exactly when the rest of the path would take the message in
      that spelling. */
  lemma PresentedDelivers(net: Net, ws: Windows, path: seq<Hop>, kids: seq<Text>, m: Msg, i: nat, g: Frame)
    requires ValidPath(path, kids, m) && i < |path| && g.Clear().Valid() && AllSound(ws)
    requires g.next == path[i].id && g.tag == LayerAt(path, kids, m, i).1
    ensures Travel(net, ws, g).0.end.Delivered? <==>
            g == FrameAt(path, kids, m, i).(from := g.from) && Deliverable(net, ws, path, Respelled(m, g.from), i)
  {
    var m' := Respelled(m, g.from);
    PresentedTaken(net, ws, path, kids, m, i, g);
    RespelledFrame(path, kids, m, g.from, i);
    if Taken(net, ws, g) {
      TravelFrom(net, ws, path, kids, m', i);
      assert Arrives(net, ws, path, kids, m', i);
    } else {
      NotTakenEnds(net, ws, g);
      assert Deliverable(net, ws, path, m', i) ==> Knows(net, path, m', i) && Fresher(ws, path, m', i);
    }
  }

  // ---- once a hop has taken it ----

  /** A hop that was given its own layer took it exactly if it knows the secret and found the
      pair fresh. */
  lemma TakenIs(net: Net, ws: Windows, path: seq<Hop>, kids: seq<Text>, m: Msg, i: nat)
    requires i < |path| == |kids| && |path| <= I32_MAX
    ensures Taken(net, ws, FrameAt(path, kids, m, i)) <==> Knows(net, path, m, i) && Fresher(ws, path, m, i)
  {
    if net.Under(path[i].id, m.from, path[i].epoch) in net.keys { HopPeels(net, path, kids, m, i); }
  }

  /**
   In the origin's own spelling it is never taken again: once hop `i` has taken its layer,
   whatever became of the onion afterwards, the same frame is refused there when presented
   again, whatever that hop checked in between, as long as it still remembers the origin's
   session.
   */
  lemma CapturedLayerRefused(net: Net, ws: Windows, path: seq<Hop>, kids: seq<Text>, m: Msg, i: nat, cs: seq<Check>, later: Windows)
    requires AllSound(ws) && i < |path| == |kids| && |path| <= I32_MAX && Taken(net, ws, FrameAt(path, kids, m, i))
    requires var w := WindowOf(Checked(ws, FrameAt(path, kids, m, i)), path[i].id, m.from);
             && (forall n :: 0 <= n <= |cs| ==> m.session in Remembered(RunChecks(w, cs[..n])))
             && WindowOf(later, path[i].id, m.from) == RunChecks(w, cs)
    ensures var j := Travel(net, later, FrameAt(path, kids, m, i)).0;
            j.end.Refused? && |j.visits| == 1
  {
    TakenIs(net, ws, path, kids, m, i);
    CheckedRefuses(WindowOf(ws, path[i].id, m.from), m, cs);
    HopRefuses(net, later, path, kids, m, i);
  }

  lemma CheckedRefuses(w: Window, m: Msg, cs: seq<Check>)
    requires Sound(w) && Accepts(w, m.session, m.counter)
    requires var w' := CheckAndSet(w, m.session, m.counter).0;
             forall n :: 0 <= n <= |cs| ==> m.session in Remembered(RunChecks(w', cs[..n]))
    ensures !Accepts(RunChecks(CheckAndSet(w, m.session, m.counter).0, cs), m.session, m.counter)
  {
    AcceptedThenRefused(w, m.session, m.counter);
    CheckRemembers(w, m.session, m.counter);
    StaysRefused(CheckAndSet(w, m.session, m.counter).0, m.session, m.counter, cs);
  }

  /** The journey came to its stop number `n`, and the hop there took the frame. */
  predicate TookAt(j: Journey, n: nat) {
    |j.visits| > n + 1 || (|j.visits| == n + 1 && (j.end.Delivered? || j.end.LoopToSelf? || j.end.NoRoute?))
  }

  /** The hop remembers the session and would refuse the pair. */
  ghost predicate Refuses(ws: Windows, hop: Text, from: Text, session: nat, counter: nat) {
    session in Remembered(WindowOf(ws, hop, from)) && !Accepts(WindowOf(ws, hop, from), session, counter)
  }

  lemma CheckedStillRefuses(ws: Windows, f: Frame, hop: Text)
    requires AllSound(ws) && f.counter > 0 && Refuses(ws, hop, f.from, f.session, f.counter)
    ensures Refuses(Checked(ws, f), hop, f.from, f.session, f.counter)
  {
    if hop == f.next {
      var w := WindowOf(ws, hop, f.from);
      CheckRemembers(w, f.session, f.counter);
      RefusedStaysRefused(w, f.session, f.counter, f.session, f.counter);
    }
  }

  /** No journey of the message makes a hop take it again. */
  lemma {:induction false} TravelStillRefuses(net: Net, ws: Windows, f: Frame, hop: Text)
    requires -I32_MAX - 1 <= f.hops <= I32_MAX && AllSound(ws) && f.counter > 0 && Refuses(ws, hop, f.from, f.session, f.counter)
    ensures Refuses(Travel(net, ws, f).1, hop, f.from, f.session, f.counter)
    decreases if f.hops < 0 then 0 else f.hops
  {
    var k := net.Under(f.next, f.from, f.epoch);
    var ws' := CheckedSound(ws, f);
    CheckedStillRefuses(ws, f, hop);
    if k in net.keys {
      var r := Peel(net.keys[k], f.Clear(), f.ct, f.tag);
      if r.Ok? && r.value.Forward? { TravelStillRefuses(net, ws', Onward(f, r.value.layer), hop); }
    }
  }

  lemma {:induction false} FirstTook(net: Net, ws: Windows, f: Frame)
    requires -I32_MAX - 1 <= f.hops <= I32_MAX && TookAt(Travel(net, ws, f).0, 0)
    ensures Taken(net, ws, f) && f.counter > 0
  {
    if !Taken(net, ws, f) { NotTakenEnds(net, ws, f); }
  }

  /** The first hop, if it takes the frame, refuses it ever after. */
  lemma {:induction false} FirstRefuses(net: Net, ws: Windows, f: Frame)
    requires -I32_MAX - 1 <= f.hops <= I32_MAX && AllSound(ws) && Taken(net, ws, f) && f.counter > 0
    ensures Refuses(Travel(net, ws, f).1, f.next, f.from, f.session, f.counter)
  {
    var r := Peel(net.keys[net.Under(f.next, f.from, f.epoch)], f.Clear(), f.ct, f.tag);
    var ws' := CheckedSound(ws, f);
    AcceptedThenRefused(WindowOf(ws, f.next, f.from), f.session, f.counter);
    assert Refuses(ws', f.next, f.from, f.session, f.counter);
    if r.value.Forward? { TravelStillRefuses(net, ws', Onward(f, r.value.layer), f.next); }
  }

  lemma {:induction false} TookRefuses(net: Net, ws: Windows, path: seq<Hop>, kids: seq<Text>, m: Msg, k: nat, i: nat)
    requires AllSound(ws) && k <= i < |path| == |kids| && |path| <= I32_MAX && TookAt(Travel(net, ws, FrameAt(path, kids, m, k)).0, i - k)
    ensures Knows(net, path, m, i) && m.counter > 0
    ensures Refuses(Travel(net, ws, FrameAt(path, kids, m, k)).1, path[i].id, m.from, m.session, m.counter)
    decreases i - k
  {
    var f := FrameAt(path, kids, m, k);
    if k == i {
      FirstTook(net, ws, f);
      FirstRefuses(net, ws, f);
      TakenIs(net, ws, path, kids, m, i);
    } else {
      var ws' := CheckedSound(ws, f);
      HopForwards(net, ws, path, kids, m, k);
      TookRefuses(net, ws', path, kids, m, k + 1, i);
    }
  }

  /**
   The same after a journey of the onion that got as far as hop `i`, delivered or lost further
   on.
   */
  lemma RefusedAfterJourney(net: Net, ws: Windows, path: seq<Hop>, kids: seq<Text>, m: Msg, i: nat, cs: seq<Check>, later: Windows)
    requires AllSound(ws) && i < |path| == |kids| && |path| <= I32_MAX && TookAt(Travel(net, ws, FrameAt(path, kids, m, 0)).0, i)
    requires var w := WindowOf(Travel(net, ws, FrameAt(path, kids, m, 0)).1, path[i].id, m.from);
             && (forall n :: 0 <= n <= |cs| ==> m.session in Remembered(RunChecks(w, cs[..n])))
             && WindowOf(later, path[i].id, m.from) == RunChecks(w, cs)
    ensures var j := Travel(net, later, FrameAt(path, kids, m, i)).0;
            j.end.Refused? && |j.visits| == 1
  {
    var w := WindowOf(Travel(net, ws, FrameAt(path, kids, m, 0)).1, path[i].id, m.from);
    TookRefuses(net, ws, path, kids, m, 0, i);
    JourneySound(net, ws, FrameAt(path, kids, m, 0));
    StaysRefused(w, m.session, m.counter, cs);
    assert !Fresher(later, path, m, i);
    HopRefuses(net, later, path, kids, m, i);
  }

  /**
   In any spelling that leads to the same secret it is refused exactly when the session is
   retired in the window kept under that spelling, or that window has checked the pair, or one
   a width or more ahead of it: nothing the origin's own window has seen counts.
   */
  lemma RespelledRefused(net: Net, ws: Windows, path: seq<Hop>, kids: seq<Text>, m: Msg, i: nat, from: Text, cs: seq<Check>)
    requires i < |path| == |kids| && |path| <= I32_MAX && m.counter > 0
    requires Knows(net, path, m, i) && net.fold(from) == net.fold(m.from)
    requires Kept(ONION_WINDOW, cs, m.session) && WindowOf(ws, path[i].id, from) == RunChecks(Fresh(ONION_WINDOW), cs)
    ensures var j := Travel(net, ws, FrameAt(path, kids, m, i).(from := from)).0;
            j.end.Refused? && |j.visits| == 1 <==>
            m.session in WindowOf(ws, path[i].id, from).retired || Spent(cs, ONION_WINDOW, m.session, m.counter)
  {
    var m' := Respelled(m, from);
    RespelledFrame(path, kids, m, from, i);
    RefusedExactly(ONION_WINDOW, cs, m.session, m.counter);
    assert Knows(net, path, m', i);
    if Fresher(ws, path, m', i) { TakenNotRefused(net, ws, path, kids, m', i); } else { HopRefuses(net, ws, path, kids, m', i); }
  }

  lemma TakenNotRefused(net: Net, ws: Windows, path: seq<Hop>, kids: seq<Text>, m: Msg, i: nat)
    requires i < |path| == |kids| && |path| <= I32_MAX && Knows(net, path, m, i) && Fresher(ws, path, m, i)
    ensures var j := Travel(net, ws, FrameAt(path, kids, m, i)).0; !(j.end.Refused? && |j.visits| == 1)
  {
    HopPeels(net, path, kids, m, i);
    if i < |path| - 1 {
      assert Onward(FrameAt(path, kids, m, i), PlainAt(path, kids, m, i).layer) == FrameAt(path, kids, m, i + 1);
      Visits(net, Checked(ws, FrameAt(path, kids, m, i)), FrameAt(path, kids, m, i + 1));
    }
  }

  // ---- two spellings ----

  /** A journey touches only the windows kept under the spelling it travels in. */
  lemma {:induction false} OtherSpellings(net: Net, ws: Windows, f: Frame, hop: Text, from: Text)
    requires -I32_MAX - 1 <= f.hops <= I32_MAX && from != f.from
    ensures WindowOf(Travel(net, ws, f).1, hop, from) == WindowOf(ws, hop, from)
    decreases if f.hops < 0 then 0 else f.hops
  {
    var k := net.Under(f.next, f.from, f.epoch);
    if k in net.keys {
      var r := Peel(net.keys[k], f.Clear(), f.ct, f.tag);
      if r.Ok? && r.value.Forward? { OtherSpellings(net, Checked(ws, f), Onward(f, r.value.layer), hop, from); }
    }
  }

  lemma {:induction false} JourneySound(net: Net, ws: Windows, f: Frame)
    requires -I32_MAX - 1 <= f.hops <= I32_MAX && AllSound(ws)
    ensures AllSound(Travel(net, ws, f).1)
    decreases if f.hops < 0 then 0 else f.hops
  {
    var k := net.Under(f.next, f.from, f.epoch);
    var ws' := CheckedSound(ws, f);
    if k in net.keys {
      var r := Peel(net.keys[k], f.Clear(), f.ct, f.tag);
      if r.Ok? && r.value.Forward? { JourneySound(net, ws', Onward(f, r.value.layer)); }
    }
  }

  /** Another spelling leads every hop to the same secrets, and to windows the first journey did
      not touch. */
  lemma RespelledHop(net: Net, ws: Windows, path: seq<Hop>, kids: seq<Text>, m: Msg, from: Text, k: nat)
    requires k < |path| == |kids| && |path| <= I32_MAX && from != m.from && net.fold(from) == net.fold(m.from)
    ensures var ws', m' := Travel(net, ws, FrameAt(path, kids, m, 0)).1, Respelled(m, from);
            (Knows(net, path, m', k) <==> Knows(net, path, m, k)) && (Fresher(ws', path, m', k) <==> Fresher(ws, path, m', k))
  {
    OtherSpellings(net, ws, FrameAt(path, kids, m, 0), path[k].id, from);
  }

  lemma RespelledDeliverable(net: Net, ws: Windows, path: seq<Hop>, kids: seq<Text>, m: Msg, i: nat, from: Text)
    requires i < |path| == |kids| && |path| <= I32_MAX && Deliverable(net, ws, path, m, 0)
    requires from != m.from && net.fold(from) == net.fold(m.from)
    ensures Deliverable(net, Travel(net, ws, FrameAt(path, kids, m, 0)).1, path, Respelled(m, from), i) <==>
            forall k :: i <= k < |path| ==> Fresher(ws, path, Respelled(m, from), k)
  {
    var ws', m' := Travel(net, ws, FrameAt(path, kids, m, 0)).1, Respelled(m, from);
    forall k | i <= k < |path| ensures Knows(net, path, m', k) && (Fresher(ws', path, m', k) <==> Fresher(ws, path, m', k)) {
      RespelledHop(net, ws, path, kids, m, from, k);
      assert Knows(net, path, m, k);
    }
  }

  /**
   So the origin's name is not bound: an onion that was delivered is delivered a second time
   from any hop on, in another spelling of the origin, exactly when no hop from there on has
   spent the pair under that spelling.
   */
  lemma DeliveredAgain(net: Net, ws: Windows, path: seq<Hop>, kids: seq<Text>, m: Msg, i: nat, from: Text)
    requires AllSound(ws) && i < |path| == |kids| && |path| <= I32_MAX && Deliverable(net, ws, path, m, 0)
    requires from != m.from && net.fold(from) == net.fold(m.from)
    ensures var j := Travel(net, Travel(net, ws, FrameAt(path, kids, m, 0)).1, FrameAt(path, kids, m, i).(from := from)).0;
            && (j.end.Delivered? <==> forall k :: i <= k < |path| ==> Fresher(ws, path, Respelled(m, from), k))
            && (j.end.Delivered? ==> j == Journey(Stops(path, i), Delivered(Body(m.body))))
  {
    var ws', m' := Travel(net, ws, FrameAt(path, kids, m, 0)).1, Respelled(m, from);
    JourneySound(net, ws, FrameAt(path, kids, m, 0));
    RespelledDeliverable(net, ws, path, kids, m, i, from);
    RespelledFrame(path, kids, m, from, i);
    TravelFrom(net, ws', path, kids, m', i);
    assert Arrives(net, ws', path, kids, m', i);
  }

  /** Lower case, as far as the letters of ASCII go. */
  function Lower(t: Text): Text { seq(|t|, i requires 0 <= i < |t| => if 0x41 <= t[i] <= 0x5A then (t[i] + 0x20) as byte else t[i]) }

  /** "orr_1" and "ORR_1" */
  const PLAIN: Text := [0x6F, 0x72, 0x72, 0x5F, 0x31]
  const CAPITAL: Text := [0x4F, 0x52, 0x52, 0x5F, 0x31]

  lemma OneName()
    ensures PLAIN != CAPITAL && Lower(PLAIN) == PLAIN == Lower(CAPITAL)
  {
    assert PLAIN[0] != CAPITAL[0];
  }

  /** The two spellings at work: one hop, nothing seen before; the same layer is delivered twice. */
  lemma TwoSpellings(hop: Hop, kid: Text, session: nat, header: seq<byte>, body: seq<byte>)
    ensures var net := Net(map[(hop.id, PLAIN, hop.epoch) := hop.secret], {}, Lower);
            var f := FrameAt([hop], [kid], Msg(PLAIN, session, 1, header, body), 0);
            var (j, ws) := Travel(net, map[], f);
            j.end == Delivered(Body(body)) && Travel(net, ws, f.(from := CAPITAL)).0.end == Delivered(Body(body))
  {
    var net := Net(map[(hop.id, PLAIN, hop.epoch) := hop.secret], {}, Lower);
    var path, kids, m := [hop], [kid], Msg(PLAIN, session, 1, header, body);
    OneName();
    assert Knows(net, path, m, 0) && Fresher(map[], path, m, 0) && Fresher(map[], path, Respelled(m, CAPITAL), 0);
    assert Deliverable(net, map[], path, m, 0);
    TravelFrom(net, map[], path, kids, m, 0);
    assert Arrives(net, map[], path, kids, m, 0);
    DeliveredAgain(net, map[], path, kids, m, 0, CAPITAL);
  }
}
