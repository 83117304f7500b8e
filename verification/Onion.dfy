/** Building an onion and peeling it along its path (orr/src/onion.rs, orr/src/service.rs). */
module Onion {
  import opened Wrappers
  import opened Bytes
  import opened Symbolic
  import opened ReplaySpec
  import opened OnionSpec
  import opened Widths

  /** What an origin sends: its freshness pair, the DKMS header beside the payload, and the body. */
  datatype Msg = Msg(from: Text, session: nat, counter: nat, header: seq<byte>, body: seq<byte>)

  /** What the wire frame of an onion carries. */
  datatype Wire = Wire(first: Text, epoch: nat, keyId: Text, hops: int, session: nat, counter: nat,
                       ct: Cipher<Plain>, tag: Tag<Plain, LayerAad>)

  // ---- what the loop builds ----

  function CtxAt(path: seq<Hop>, kids: seq<Text>, m: Msg, i: nat): (c: Ctx)
    requires i < |path| == |kids|
    ensures -I32_MAX - 1 <= c.hops <= I32_MAX
  {
    Ctx(kids[i], path[i].epoch, ToI32(|path| - 1 - i), m.session, m.counter, m.header)
  }

  /** What hop `i` finds in its layer: the layer of the next hop, or the body. */
  function PlainAt(path: seq<Hop>, kids: seq<Text>, m: Msg, i: nat): Plain
    requires i < |path| == |kids|
    decreases |path| - i
  {
    if i == |path| - 1 then Body(m.body) else
    var (ct, tag) := SealLayer(path[i + 1].secret, CtxAt(path, kids, m, i + 1), PlainAt(path, kids, m, i + 1));
    Encoded(InnerLayer(path[i + 1].id, path[i + 1].epoch, kids[i + 1], ct, tag))
  }

  function LayerAt(path: seq<Hop>, kids: seq<Text>, m: Msg, i: nat): (Cipher<Plain>, Tag<Plain, LayerAad>)
    requires i < |path| == |kids|
  {
    SealLayer(path[i].secret, CtxAt(path, kids, m, i), PlainAt(path, kids, m, i))
  }

  function WireOf(path: seq<Hop>, kids: seq<Text>, m: Msg): Wire
    requires 0 < |path| == |kids|
  {
    var (ct, tag) := LayerAt(path, kids, m, 0);
    Wire(path[0].id, path[0].epoch, kids[0], |path| - 1, m.session, m.counter, ct, tag)
  }

  /** `build_onion`, from the inside out; `kids` are the key ids drawn for the layers. */
  method BuildOnion(path: seq<Hop>, kids: seq<Text>, m: Msg) returns (r: Result<Wire, ()>)
    requires |path| == |kids|
    ensures r.Err? <==> path == []
    ensures r.Ok? ==> r.value == WireOf(path, kids, m)
  {
    if path == [] { return Err(()); }
    var i := |path| - 1;
    var dst := path[i];
    var (ct, tag) := SealLayer(dst.secret, Ctx(kids[i], dst.epoch, 0, m.session, m.counter, m.header), Body(m.body));
    var nextId, nextEpoch, nextKid := dst.id, dst.epoch, kids[i];
    while i > 0
      invariant 0 <= i < |path|
      invariant (ct, tag) == LayerAt(path, kids, m, i)
      invariant nextId == path[i].id && nextEpoch == path[i].epoch && nextKid == kids[i]
    {
      i := i - 1;
      var layer := InnerLayer(nextId, nextEpoch, nextKid, ct, tag);
      var left := ToI32(|path| - 1 - i);
      var sealed := SealLayer(path[i].secret, Ctx(kids[i], path[i].epoch, left, m.session, m.counter, m.header), Encoded(layer));
      ct, tag := sealed.0, sealed.1;
      nextId, nextEpoch, nextKid := path[i].id, path[i].epoch, kids[i];
    }
    return Ok(Wire(nextId, nextEpoch, nextKid, |path| - 1, m.session, m.counter, ct, tag));
  }

  // ---- the journey ----

  /** Width of the window each hop keeps for each origin. */
  const ONION_WINDOW: nat := 65536

  /** What the hops know: the secret shared with an origin for an epoch, under the origin's
      name in lower case (`fold`), and which peers each can relay to. */
  datatype Net = Net(keys: map<(Text, Text, nat), Secret>, routes: set<(Text, Text)>, fold: Text -> Text) {
    function Under(hop: Text, origin: Text, epoch: nat): (Text, Text, nat) { (hop, fold(origin), epoch) }
  }

  /** The anti-replay windows, by hop and by the origin's name as the frame spells it. */
  type Windows = map<(Text, Text), Window>

  datatype Frame = Frame(from: Text, next: Text, epoch: nat, keyId: Text, hops: int, session: nat, counter: nat,
                         header: seq<byte>, ct: Cipher<Plain>, tag: Tag<Plain, LayerAad>) {
    function Clear(): Ctx { Ctx(keyId, epoch, hops, session, counter, header) }
  }

  datatype Visit = Visit(hop: Text, epoch: nat, hops: int)

  datatype End = Delivered(body: Plain) | NoSecret | BadLayer(why: PeelError) | Refused(err: ReplayError) | LoopToSelf | NoRoute

  datatype Journey = Journey(visits: seq<Visit>, end: End)

  function WindowOf(ws: Windows, hop: Text, origin: Text): Window {
    if (hop, origin) in ws then ws[(hop, origin)] else Fresh(ONION_WINDOW)
  }

  /** The relayed frame: the layer's own epoch, key id and tag, one hop less, freshness copied. */
  function Onward(f: Frame, l: InnerLayer): Frame {
    Frame(f.from, l.next, l.epoch, l.keyId, if f.hops - 1 < 0 then 0 else f.hops - 1, f.session, f.counter, f.header, l.ct, l.tag)
  }

  /** The windows once a hop has checked the frame. */
  function Checked(ws: Windows, f: Frame): Windows {
    ws[(f.next, f.from) := CheckAndSet(WindowOf(ws, f.next, f.from), f.session, f.counter).0]
  }

  /** The frame goes from hop to hop. Each looks up the secret it shares with the origin for
      the epoch in the frame, peels, checks freshness, and delivers or relays. */
  function Travel(net: Net, ws: Windows, f: Frame): (Journey, Windows)
    requires -I32_MAX - 1 <= f.hops <= I32_MAX
    decreases if f.hops < 0 then 0 else f.hops
  {
    var v := [Visit(f.next, f.epoch, f.hops)];
    var k := net.Under(f.next, f.from, f.epoch);
    if k !in net.keys then (Journey(v, NoSecret), ws) else
    match Peel(net.keys[k], f.Clear(), f.ct, f.tag)
    case Err(why) => (Journey(v, BadLayer(why)), ws)
    case Ok(peeled) =>
      var err := CheckAndSet(WindowOf(ws, f.next, f.from), f.session, f.counter).1;
      if err.Some? then (Journey(v, Refused(err.value)), Checked(ws, f)) else
      match peeled
      case Deliver(p) => (Journey(v, Delivered(p)), Checked(ws, f))
      case Forward(l) =>
        if l.next == f.next then (Journey(v, LoopToSelf), Checked(ws, f))
        else if (f.next, l.next) !in net.routes then (Journey(v, NoRoute), Checked(ws, f)) else
        var (rest, ws') := Travel(net, Checked(ws, f), Onward(f, l));
        (Journey(v + rest.visits, rest.end), ws')
  }

  function FrameOf(w: Wire, m: Msg): Frame {
    Frame(m.from, w.first, w.epoch, w.keyId, w.hops, w.session, w.counter, m.header, w.ct, w.tag)
  }

  /** The frame as it reaches hop `i`. */
  function FrameAt(path: seq<Hop>, kids: seq<Text>, m: Msg, i: nat): Frame
    requires i < |path| == |kids|
  {
    var (ct, tag) := LayerAt(path, kids, m, i);
    Frame(m.from, path[i].id, path[i].epoch, kids[i], |path| - 1 - i, m.session, m.counter, m.header, ct, tag)
  }

  function Stops(path: seq<Hop>, i: nat): seq<Visit>
    requires i <= |path|
    decreases |path| - i
  {
    if i == |path| then [] else [Visit(path[i].id, path[i].epoch, |path| - 1 - i)] + Stops(path, i + 1)
  }

  /** Hop `i` shares the secret its layer was sealed under with the origin. */
  predicate Knows(net: Net, path: seq<Hop>, m: Msg, i: nat)
    requires i < |path|
  {
    var k := net.Under(path[i].id, m.from, path[i].epoch);
    k in net.keys && net.keys[k] == path[i].secret
  }

  /** Hop `i` accepts the message's freshness pair. */
  predicate Fresher(ws: Windows, path: seq<Hop>, m: Msg, i: nat)
    requires i < |path|
  {
    Accepts(WindowOf(ws, path[i].id, m.from), m.session, m.counter)
  }

  /** Hop `i` can relay to the next. */
  predicate Routed(net: Net, path: seq<Hop>, i: nat)
    requires i < |path| - 1
  {
    (path[i].id, path[i + 1].id) in net.routes
  }

  /** From hop `i` on: every hop knows its secret, finds the message fresh and can relay to the
      next, and none comes twice. */
  ghost predicate Deliverable(net: Net, ws: Windows, path: seq<Hop>, m: Msg, i: nat) {
    && (forall k :: i <= k < |path| ==> Knows(net, path, m, k))
    && (forall k :: i <= k < |path| ==> Fresher(ws, path, m, k))
    && (forall k :: i <= k < |path| - 1 ==> Routed(net, path, k))
    && (forall j, k :: i <= j < k < |path| ==> path[j].id != path[k].id)
  }

  ghost predicate AllSound(ws: Windows) {
    forall k :: k in ws ==> Sound(ws[k])
  }

  lemma CheckedSound(ws: Windows, f: Frame) returns (ws': Windows)
    requires AllSound(ws)
    ensures ws' == Checked(ws, f) && AllSound(ws')
  {
    ws' := Checked(ws, f);
    CheckRemembers(WindowOf(ws, f.next, f.from), f.session, f.counter);
  }

  /** Hop `i` passes the onion on. */
  ghost predicate PassesOn(net: Net, ws: Windows, path: seq<Hop>, m: Msg, i: nat)
    requires i < |path| - 1
  {
    && Knows(net, path, m, i) && Fresher(ws, path, m, i)
    && path[i].id != path[i + 1].id && Routed(net, path, i)
  }

  /** What the first hop decides, and what is then asked of the others. */
  lemma DeliverableFrom(net: Net, ws: Windows, path: seq<Hop>, kids: seq<Text>, m: Msg, i: nat)
    requires AllSound(ws) && i < |path| - 1 && |path| == |kids|
    ensures Deliverable(net, ws, path, m, i) <==>
            PassesOn(net, ws, path, m, i) && Deliverable(net, Checked(ws, FrameAt(path, kids, m, i)), path, m, i + 1)
  {
    var ws' := Checked(ws, FrameAt(path, kids, m, i));
    if Fresher(ws, path, m, i) {
      AcceptedThenRefused(WindowOf(ws, path[i].id, m.from), m.session, m.counter);
      assert !Accepts(WindowOf(ws', path[i].id, m.from), m.session, m.counter);
      forall k | i < k < |path| ensures Fresher(ws', path, m, k) <==> Fresher(ws, path, m, k) && path[k].id != path[i].id {
      }
    }
  }

  /** The hop opens its layer exactly with the secret it was sealed under. */
  lemma HopPeels(net: Net, path: seq<Hop>, kids: seq<Text>, m: Msg, i: nat)
    requires i < |path| == |kids| && |path| <= I32_MAX && net.Under(path[i].id, m.from, path[i].epoch) in net.keys
    ensures var f := FrameAt(path, kids, m, i);
            OpenLayer(net.keys[net.Under(path[i].id, m.from, path[i].epoch)], f.Clear(), f.ct, f.tag)
            == if Knows(net, path, m, i) then Some(PlainAt(path, kids, m, i)) else None
  {
    assert FrameAt(path, kids, m, i).Clear() == CtxAt(path, kids, m, i);
  }

  /** One hop of the journey. */
  lemma HopForwards(net: Net, ws: Windows, path: seq<Hop>, kids: seq<Text>, m: Msg, i: nat)
    requires i < |path| - 1 && |path| == |kids| && |path| <= I32_MAX
    ensures var f, g := FrameAt(path, kids, m, i), FrameAt(path, kids, m, i + 1);
            var (j, ws') := Travel(net, ws, f);
            if PassesOn(net, ws, path, m, i)
            then var rest := Travel(net, Checked(ws, f), g);
                 j == Journey([Visit(path[i].id, path[i].epoch, |path| - 1 - i)] + rest.0.visits, rest.0.end) && ws' == rest.1
            else |j.visits| == 1 && !j.end.Delivered?
  {
    var f := FrameAt(path, kids, m, i);
    if net.Under(path[i].id, m.from, path[i].epoch) in net.keys {
      HopPeels(net, path, kids, m, i);
      assert Onward(f, PlainAt(path, kids, m, i).layer) == FrameAt(path, kids, m, i + 1);
    }
  }

  lemma HopDelivers(net: Net, ws: Windows, path: seq<Hop>, kids: seq<Text>, m: Msg)
    requires 0 < |path| == |kids| && |path| <= I32_MAX
    ensures var i := |path| - 1; var f := FrameAt(path, kids, m, i);
            var (j, ws') := Travel(net, ws, f);
            if Knows(net, path, m, i) && Fresher(ws, path, m, i)
            then j == Journey([Visit(path[i].id, path[i].epoch, 0)], Delivered(Body(m.body))) && ws' == Checked(ws, f)
            else !j.end.Delivered?
  {
    var i := |path| - 1;
    if net.Under(path[i].id, m.from, path[i].epoch) in net.keys { HopPeels(net, path, kids, m, i); }
  }

  /** The journey `j` from hop `i` delivers exactly if `d`, and then the body along the path. */
  ghost predicate Outcome(path: seq<Hop>, m: Msg, i: nat, j: Journey, d: bool)
    requires i <= |path|
  {
    (j.end.Delivered? <==> d) && (d ==> j == Journey(Stops(path, i), Delivered(Body(m.body))))
  }

  ghost predicate Arrives(net: Net, ws: Windows, path: seq<Hop>, kids: seq<Text>, m: Msg, i: nat)
    requires i < |path| == |kids| && |path| <= I32_MAX
  {
    Outcome(path, m, i, Travel(net, ws, FrameAt(path, kids, m, i)).0, Deliverable(net, ws, path, m, i))
  }

  lemma OutcomeStep(path: seq<Hop>, m: Msg, i: nat, j: Journey, rest: Journey, on: bool, d: bool)
    requires i < |path| && Outcome(path, m, i + 1, rest, d)
    requires if on then j == Journey([Visit(path[i].id, path[i].epoch, |path| - 1 - i)] + rest.visits, rest.end) else !j.end.Delivered?
    ensures Outcome(path, m, i, j, on && d)
  {
  }

  lemma {:induction false} TravelFrom(net: Net, ws: Windows, path: seq<Hop>, kids: seq<Text>, m: Msg, i: nat)
    requires AllSound(ws) && i < |path| == |kids| && |path| <= I32_MAX
    ensures Arrives(net, ws, path, kids, m, i)
    decreases |path| - i
  {
    if i == |path| - 1 {
      TravelLast(net, ws, path, kids, m);
    } else {
      var ws' := CheckedSound(ws, FrameAt(path, kids, m, i));
      TravelFrom(net, ws', path, kids, m, i + 1);
      TravelStep(net, ws, ws', path, kids, m, i);
    }
  }

  lemma OutcomeLast(path: seq<Hop>, m: Msg, j: Journey)
    requires path != []
    requires var i := |path| - 1; j.end.Delivered? ==> j == Journey([Visit(path[i].id, path[i].epoch, 0)], Delivered(Body(m.body)))
    ensures Outcome(path, m, |path| - 1, j, j.end.Delivered?)
  {
    assert Stops(path, |path| - 1) == [Visit(path[|path| - 1].id, path[|path| - 1].epoch, 0)] + Stops(path, |path|);
  }

  lemma DeliverableLast(net: Net, ws: Windows, path: seq<Hop>, m: Msg)
    requires path != []
    ensures Deliverable(net, ws, path, m, |path| - 1) <==> Knows(net, path, m, |path| - 1) && Fresher(ws, path, m, |path| - 1)
  {
  }

  lemma TravelLast(net: Net, ws: Windows, path: seq<Hop>, kids: seq<Text>, m: Msg)
    requires 0 < |path| == |kids| && |path| <= I32_MAX
    ensures Arrives(net, ws, path, kids, m, |path| - 1)
  {
    HopDelivers(net, ws, path, kids, m);
    OutcomeLast(path, m, Travel(net, ws, FrameAt(path, kids, m, |path| - 1)).0);
    DeliverableLast(net, ws, path, m);
  }

  lemma TravelStep(net: Net, ws: Windows, ws': Windows, path: seq<Hop>, kids: seq<Text>, m: Msg, i: nat)
    requires AllSound(ws) && i < |path| - 1 && |path| == |kids| && |path| <= I32_MAX && ws' == Checked(ws, FrameAt(path, kids, m, i))
    requires Arrives(net, ws', path, kids, m, i + 1)
    ensures Arrives(net, ws, path, kids, m, i)
  {
    HopForwards(net, ws, path, kids, m, i);
    OutcomeStep(path, m, i, Travel(net, ws, FrameAt(path, kids, m, i)).0, Travel(net, ws', FrameAt(path, kids, m, i + 1)).0,
                PassesOn(net, ws, path, m, i), Deliverable(net, ws', path, m, i + 1));
    DeliverableFrom(net, ws, path, kids, m, i);
  }

  /**
   For every path and body, from any state of the hops' windows: the onion is delivered
   exactly when every hop shares the secret its layer was sealed under, finds the message
   fresh and can relay to the next, and no hop comes twice on the path. It has then visited
   the path in order, each hop under its own epoch with n-1, n-2, ..., 0 hops left, and
   delivers exactly the body.
   */
  lemma OnionDelivers(net: Net, ws: Windows, path: seq<Hop>, kids: seq<Text>, m: Msg)
    requires AllSound(ws) && 0 < |path| == |kids| && |path| <= I32_MAX
    ensures var j := Travel(net, ws, FrameOf(WireOf(path, kids, m), m)).0;
            && (j.end.Delivered? <==> Deliverable(net, ws, path, m, 0))
            && (j.end.Delivered? ==> j == Journey(Stops(path, 0), Delivered(Body(m.body))))
  {
    TravelFrom(net, ws, path, kids, m, 0);
    assert FrameOf(WireOf(path, kids, m), m) == FrameAt(path, kids, m, 0);
  }

  lemma HopRefuses(net: Net, ws: Windows, path: seq<Hop>, kids: seq<Text>, m: Msg, i: nat)
    requires i < |path| == |kids| && |path| <= I32_MAX && Knows(net, path, m, i) && !Fresher(ws, path, m, i)
    ensures Travel(net, ws, FrameAt(path, kids, m, i)).0 ==
            Journey([Visit(path[i].id, path[i].epoch, |path| - 1 - i)],
                    Refused(CheckAndSet(WindowOf(ws, path[i].id, m.from), m.session, m.counter).1.value))
  {
    HopPeels(net, path, kids, m, i);
  }

  /** Why an onion stops at a hop, the first reason in the order they are looked at; it goes on
      exactly if there is none and the hop is not the last. */
  lemma StopsExactly(net: Net, ws: Windows, path: seq<Hop>, kids: seq<Text>, m: Msg, i: nat)
    requires i < |path| == |kids| && |path| <= I32_MAX
    ensures var j := Travel(net, ws, FrameAt(path, kids, m, i)).0; var here := [Visit(path[i].id, path[i].epoch, |path| - 1 - i)];
            if net.Under(path[i].id, m.from, path[i].epoch) !in net.keys then j == Journey(here, NoSecret)
            else if !Knows(net, path, m, i) then j == Journey(here, BadLayer(BadTag))
            else if !Fresher(ws, path, m, i) then j.visits == here && j.end.Refused?
            else if i == |path| - 1 then j == Journey(here, Delivered(Body(m.body)))
            else if path[i + 1].id == path[i].id then j == Journey(here, LoopToSelf)
            else if !Routed(net, path, i) then j == Journey(here, NoRoute)
            else here < j.visits && PassesOn(net, ws, path, m, i)
  {
    if net.Under(path[i].id, m.from, path[i].epoch) in net.keys { HopPeels(net, path, kids, m, i); }
    if i < |path| - 1 && PassesOn(net, ws, path, m, i) {
      HopForwards(net, ws, path, kids, m, i);
      Visits(net, Checked(ws, FrameAt(path, kids, m, i)), FrameAt(path, kids, m, i + 1));
    }
  }

  lemma Visits(net: Net, ws: Windows, f: Frame)
    requires -I32_MAX - 1 <= f.hops <= I32_MAX
    ensures Travel(net, ws, f).0.visits != []
  {
  }

  lemma TwiceReplayed(session: nat, counter: nat)
    requires counter > 0
    ensures Accepts(Fresh(ONION_WINDOW), session, counter)
    ensures CheckAndSet(CheckAndSet(Fresh(ONION_WINDOW), session, counter).0, session, counter).1 == Some(Replayed)
  {
  }

  lemma {:induction false} ThreeStops(path: seq<Hop>)
    requires |path| == 3
    ensures Stops(path, 0) == [Visit(path[0].id, path[0].epoch, 2)] + ([Visit(path[1].id, path[1].epoch, 1)] + [Visit(path[2].id, path[2].epoch, 0)])
  {
    assert Stops(path, 2) == [Visit(path[2].id, path[2].epoch, 0)] + Stops(path, 3);
  }

  /** The second visit finds the window in which the first left its mark. */
  lemma SecondVisit(ws: Windows, path: seq<Hop>, kids: seq<Text>, m: Msg)
    requires |path| == |kids| == 3 && path[0].id == path[2].id != path[1].id && m.counter > 0 && ws == map[]
    ensures var ws1 := Checked(ws, FrameAt(path, kids, m, 0)); var ws2 := Checked(ws1, FrameAt(path, kids, m, 1));
            && Fresher(ws, path, m, 0) && Fresher(ws1, path, m, 1)
            && CheckAndSet(WindowOf(ws2, path[2].id, m.from), m.session, m.counter).1 == Some(Replayed)
  {
    TwiceReplayed(m.session, m.counter);
  }

  lemma {:induction false} LastTwoHops(net: Net, ws1: Windows, path: seq<Hop>, kids: seq<Text>, m: Msg)
    requires |path| == |kids| == 3 && PassesOn(net, ws1, path, m, 1) && Knows(net, path, m, 2)
    requires CheckAndSet(WindowOf(Checked(ws1, FrameAt(path, kids, m, 1)), path[2].id, m.from), m.session, m.counter).1 == Some(Replayed)
    ensures Travel(net, ws1, FrameAt(path, kids, m, 1)).0 ==
            Journey([Visit(path[1].id, path[1].epoch, 1)] + [Visit(path[2].id, path[2].epoch, 0)], Refused(Replayed))
  {
    HopForwards(net, ws1, path, kids, m, 1);
    HopRefuses(net, Checked(ws1, FrameAt(path, kids, m, 1)), path, kids, m, 2);
  }

  /** A path may not come back to a hop, even by way of another: the second visit carries the
      same freshness pair and is refused. */
  lemma {:induction false} RevisitRefused(net: Net, path: seq<Hop>, kids: seq<Text>, m: Msg)
    requires |path| == |kids| == 3 && path[0].id == path[2].id != path[1].id && m.counter > 0
    requires forall k :: 0 <= k < 3 ==> Knows(net, path, m, k)
    requires (path[0].id, path[1].id) in net.routes && (path[1].id, path[0].id) in net.routes
    ensures Travel(net, map[], FrameAt(path, kids, m, 0)).0 == Journey(Stops(path, 0), Refused(Replayed))
  {
    SecondVisit(map[], path, kids, m);
    LastTwoHops(net, Checked(map[], FrameAt(path, kids, m, 0)), path, kids, m);
    HopForwards(net, map[], path, kids, m, 0);
    ThreeStops(path);
  }

  // ---- what a journey leaves behind ----

  ghost predicate OnPath(path: seq<Hop>, i: nat, hop: Text) {
    exists k :: i <= k < |path| && path[k].id == hop
  }

  /** `w` becomes `w'` at a hop that is on the path and stays as it is elsewhere. */
  ghost predicate CheckedIf(on: bool, w: Window, w': Window, m: Msg) {
    w' == if on then CheckAndSet(w, m.session, m.counter).0 else w
  }

  lemma CheckedAt(ws: Windows, path: seq<Hop>, kids: seq<Text>, m: Msg, i: nat, hop: Text)
    requires i < |path| == |kids|
    ensures CheckedIf(hop == path[i].id, WindowOf(ws, hop, m.from), WindowOf(Checked(ws, FrameAt(path, kids, m, i)), hop, m.from), m)
  {
  }

  lemma OnPathFrom(net: Net, ws: Windows, path: seq<Hop>, m: Msg, i: nat, hop: Text)
    requires i < |path| && Deliverable(net, ws, path, m, i)
    ensures OnPath(path, i, hop) <==> hop == path[i].id || OnPath(path, i + 1, hop)
    ensures !(hop == path[i].id && OnPath(path, i + 1, hop))
  {
  }

  lemma Combined(a: bool, b: bool, w: Window, w1: Window, w2: Window, m: Msg)
    requires CheckedIf(a, w, w1, m) && CheckedIf(b, w1, w2, m) && !(a && b)
    ensures CheckedIf(a || b, w, w2, m)
  {
  }

  lemma OneMore(net: Net, ws: Windows, path: seq<Hop>, kids: seq<Text>, m: Msg, i: nat, hop: Text, ws': Windows)
    requires i < |path| == |kids| && Deliverable(net, ws, path, m, i)
    requires CheckedIf(OnPath(path, i + 1, hop), WindowOf(Checked(ws, FrameAt(path, kids, m, i)), hop, m.from), WindowOf(ws', hop, m.from), m)
    ensures CheckedIf(OnPath(path, i, hop), WindowOf(ws, hop, m.from), WindowOf(ws', hop, m.from), m)
  {
    CheckedAt(ws, path, kids, m, i, hop);
    OnPathFrom(net, ws, path, m, i, hop);
    Combined(hop == path[i].id, OnPath(path, i + 1, hop), WindowOf(ws, hop, m.from),
             WindowOf(Checked(ws, FrameAt(path, kids, m, i)), hop, m.from), WindowOf(ws', hop, m.from), m);
  }

  /** The journey from hop `i` leaves `hop` with a window checked once if it is on the path. */
  ghost predicate CheckedOnce(net: Net, ws: Windows, path: seq<Hop>, kids: seq<Text>, m: Msg, i: nat, hop: Text)
    requires i < |path| == |kids| && |path| <= I32_MAX
  {
    CheckedIf(OnPath(path, i, hop), WindowOf(ws, hop, m.from), WindowOf(Travel(net, ws, FrameAt(path, kids, m, i)).1, hop, m.from), m)
  }

  lemma WindowsLast(net: Net, ws: Windows, path: seq<Hop>, kids: seq<Text>, m: Msg, i: nat, hop: Text)
    requires i + 1 == |path| == |kids| && |path| <= I32_MAX && Deliverable(net, ws, path, m, i)
    ensures CheckedOnce(net, ws, path, kids, m, i, hop)
  {
    HopDelivers(net, ws, path, kids, m);
    DeliverableLast(net, ws, path, m);
    assert !OnPath(path, |path|, hop);
    OneMore(net, ws, path, kids, m, |path| - 1, hop, Checked(ws, FrameAt(path, kids, m, |path| - 1)));
  }

  lemma WindowsStep(net: Net, ws: Windows, ws': Windows, path: seq<Hop>, kids: seq<Text>, m: Msg, i: nat, hop: Text)
    requires AllSound(ws) && i < |path| - 1 && |path| == |kids| && |path| <= I32_MAX && Deliverable(net, ws, path, m, i)
    requires ws' == Checked(ws, FrameAt(path, kids, m, i)) && CheckedOnce(net, ws', path, kids, m, i + 1, hop)
    ensures CheckedOnce(net, ws, path, kids, m, i, hop)
  {
    HopForwards(net, ws, path, kids, m, i);
    DeliverableFrom(net, ws, path, kids, m, i);
    OneMore(net, ws, path, kids, m, i, hop, Travel(net, ws, FrameAt(path, kids, m, i)).1);
  }

  lemma DeliverableNext(net: Net, ws: Windows, path: seq<Hop>, kids: seq<Text>, m: Msg, i: nat) returns (ws': Windows)
    requires AllSound(ws) && i < |path| - 1 && |path| == |kids| && Deliverable(net, ws, path, m, i)
    ensures ws' == Checked(ws, FrameAt(path, kids, m, i)) && AllSound(ws') && Deliverable(net, ws', path, m, i + 1)
  {
    ws' := CheckedSound(ws, FrameAt(path, kids, m, i));
    DeliverableFrom(net, ws, path, kids, m, i);
  }

  /** A delivered onion has been checked once by every hop on its path and by no other. */
  lemma {:induction false} WindowsAfter(net: Net, ws: Windows, path: seq<Hop>, kids: seq<Text>, m: Msg, i: nat, hop: Text)
    requires AllSound(ws) && i < |path| == |kids| && |path| <= I32_MAX && Deliverable(net, ws, path, m, i)
    ensures CheckedOnce(net, ws, path, kids, m, i, hop)
    decreases |path| - i
  {
    if i == |path| - 1 {
      WindowsLast(net, ws, path, kids, m, i, hop);
    } else {
      var ws' := DeliverableNext(net, ws, path, kids, m, i);
      WindowsAfter(net, ws', path, kids, m, i + 1, hop);
      WindowsStep(net, ws, ws', path, kids, m, i, hop);
    }
  }

  // ---- what a layer is bound to ----

  ghost predicate ValidPath(path: seq<Hop>, kids: seq<Text>, m: Msg) {
    && 0 < |path| == |kids| && |path| <= I32_MAX && m.session < U64 && m.counter < U64
    && forall i :: 0 <= i < |path| ==> |kids[i]| == 16 && path[i].epoch < U32
  }

  /**
   At every depth a layer peels only for its own hop and the very key id, epoch, hop count,
   session, counter and DKMS header it was built with, whatever ciphertext is presented with
   its tag; and then the last one delivers the body and every other names its successor.
   */
  lemma LayerBound(path: seq<Hop>, kids: seq<Text>, m: Msg, i: nat, secret: Secret, c: Ctx, ct: Cipher<Plain>)
    requires ValidPath(path, kids, m) && i < |path| && c.Valid()
    ensures var (sealed, tag) := LayerAt(path, kids, m, i); var r := Peel(secret, c, ct, tag);
            && (r.Ok? <==> secret == path[i].secret && c == CtxAt(path, kids, m, i) && ct == sealed)
            && (r.Ok? && r.value.Deliver? ==> i == |path| - 1 && r.value.body == Body(m.body))
            && (r.Ok? && r.value.Forward? ==> i < |path| - 1 && r.value.layer.next == path[i + 1].id && r.value.layer.epoch == path[i + 1].epoch)
  {
    OpensExactly(path[i].secret, CtxAt(path, kids, m, i), PlainAt(path, kids, m, i), secret, c, ct);
  }

  // ---- size ----

  /** Lengths of MessagePack strings, binaries and unsigned integers. */
  function StrSize(n: nat): nat { n + if n < 32 then 1 else if n < 256 then 2 else if n < 65536 then 3 else 5 }
  function BinSize(n: nat): nat { n + if n < 256 then 2 else if n < 65536 then 3 else 5 }
  function UintSize(n: nat): nat { if n < 128 then 1 else if n < 256 then 2 else if n < 65536 then 3 else 5 }

  /** The map header and the five field names of an encoded layer. */
  const NAMES_SIZE: nat := 1 + StrSize(11) + StrSize(8) + StrSize(6) + StrSize(6) + StrSize(3)

  /** A ciphertext is as long as its plaintext; the tag travels apart. */
  function Size(p: Plain): nat {
    match p
    case Body(b) => |b|
    case Encoded(l) =>
      NAMES_SIZE + StrSize(|l.next|) + UintSize(l.epoch) + BinSize(16) + BinSize(Size(l.ct.plain)) + BinSize(16)
  }

  /** What the hops after `i` may add: a constant and their names. */
  function Overhead(path: seq<Hop>, i: nat): nat
    requires i < |path|
    decreases |path| - i
  {
    if i == |path| - 1 then 0 else NAMES_SIZE + 51 + |path[i + 1].id| + Overhead(path, i + 1)
  }

  /** The payload grows linearly with the path, and a one-hop onion not at all. */
  lemma {:induction false} PayloadSize(path: seq<Hop>, kids: seq<Text>, m: Msg, i: nat)
    requires i < |path| == |kids|
    ensures Size(LayerAt(path, kids, m, i).0.plain) <= |m.body| + Overhead(path, i)
    ensures Size(LayerAt(path, kids, m, i).0.plain) == |m.body| <==> i == |path| - 1
    ensures |m.body| <= Size(LayerAt(path, kids, m, i).0.plain)
    decreases |path| - i
  {
    if i < |path| - 1 { PayloadSize(path, kids, m, i + 1); }
  }
}
