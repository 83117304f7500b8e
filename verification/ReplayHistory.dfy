/** What a window refuses, read off the checks made of it since it was new. */
module ReplayHistory {
  import opened Wrappers
  import opened ReplaySpec

  /** The session was checked before. */
  ghost predicate Met(cs: seq<Check>, s: nat) {
    exists i :: 0 <= i < |cs| && cs[i].session == s && cs[i].counter > 0
  }

  /** The pair was checked before, or one so far ahead of it that it left the window. */
  ghost predicate Spent(cs: seq<Check>, width: nat, s: nat, c: nat) {
    exists i :: 0 <= i < |cs| && cs[i].session == s && cs[i].counter > 0 && (cs[i].counter == c || cs[i].counter >= c + width)
  }

  /** One a width or more ahead of it was checked before. */
  ghost predicate Outrun(cs: seq<Check>, width: nat, s: nat, c: nat) {
    exists i :: 0 <= i < |cs| && cs[i].session == s && cs[i].counter > 0 && cs[i].counter >= c + width
  }

  /** The session has been remembered ever since it was first checked. */
  ghost predicate Kept(width: nat, cs: seq<Check>, s: nat) {
    forall n :: 0 <= n <= |cs| && Met(cs[..n], s) ==> s in Remembered(RunChecks(Fresh(width), cs[..n]))
  }

  /** What a record of the session refuses is what is spent. */
  ghost predicate Exact(rec: Session, cs: seq<Check>, width: nat, s: nat) {
    && rec.id == s && (forall c :: c in rec.seen ==> c <= rec.highest)
    && (forall c: nat :: c > 0 ==> (Mark(rec, width, c).Err? <==> Spent(cs, width, s, c)))
    && (forall c: nat :: c > 0 ==> (Mark(rec, width, c) == Err(TooOld) <==> Outrun(cs, width, s, c)))
  }

  ghost predicate Traces(w: Window, cs: seq<Check>, s: nat) {
    || (w.cur.Some? && Exact(w.cur.value, cs, w.width, s))
    || (w.prev.Some? && Exact(w.prev.value, cs, w.width, s))
    || s in w.retired
  }

  lemma MetSnoc(cs: seq<Check>, x: Check, s: nat)
    ensures Met(cs + [x], s) <==> Met(cs, s) || (x.session == s && x.counter > 0)
  {
    var q := cs + [x];
    assert forall i :: 0 <= i < |cs| ==> q[i] == cs[i];
    assert q[|cs|] == x;
  }

  lemma SpentSnoc(cs: seq<Check>, x: Check, width: nat, s: nat, c: nat)
    ensures Spent(cs + [x], width, s, c) <==>
            Spent(cs, width, s, c) || (x.session == s && x.counter > 0 && (x.counter == c || x.counter >= c + width))
  {
    var q := cs + [x];
    assert forall i :: 0 <= i < |cs| ==> q[i] == cs[i];
    assert q[|cs|] == x;
  }

  lemma OutrunSnoc(cs: seq<Check>, x: Check, width: nat, s: nat, c: nat)
    ensures Outrun(cs + [x], width, s, c) <==> Outrun(cs, width, s, c) || (x.session == s && x.counter > 0 && x.counter >= c + width)
  {
    var q := cs + [x];
    assert forall i :: 0 <= i < |cs| ==> q[i] == cs[i];
    assert q[|cs|] == x;
  }

  /** A check of another session, or one without a counter, spends nothing of this one. */
  lemma ExactStays(rec: Session, cs: seq<Check>, x: Check, width: nat, s: nat)
    requires Exact(rec, cs, width, s) && (x.session != s || x.counter == 0)
    ensures Exact(rec, cs + [x], width, s)
  {
    forall c: nat | c > 0
      ensures Mark(rec, width, c).Err? <==> Spent(cs + [x], width, s, c)
      ensures Mark(rec, width, c) == Err(TooOld) <==> Outrun(cs + [x], width, s, c)
    {
      SpentSnoc(cs, x, width, s, c);
      OutrunSnoc(cs, x, width, s, c);
    }
  }

  lemma ExactMarks(rec: Session, cs: seq<Check>, x: Check, width: nat, s: nat)
    requires Exact(rec, cs, width, s) && x.session == s && x.counter > 0 && width > 0
    ensures var r := Mark(rec, width, x.counter); Exact(if r.Ok? then r.value else rec, cs + [x], width, s)
  {
    var r := Mark(rec, width, x.counter);
    var rec' := if r.Ok? then r.value else rec;
    forall c: nat | c > 0
      ensures Mark(rec', width, c).Err? <==> Spent(cs + [x], width, s, c)
      ensures Mark(rec', width, c) == Err(TooOld) <==> Outrun(cs + [x], width, s, c)
    {
      SpentSnoc(cs, x, width, s, c);
      OutrunSnoc(cs, x, width, s, c);
    }
  }

  lemma ExactNew(cs: seq<Check>, x: Check, width: nat, s: nat)
    requires !Met(cs, s) && x.session == s && x.counter > 0 && width > 0
    ensures Mark(Session(s, 0, {}), width, x.counter).Ok?
    ensures Exact(Mark(Session(s, 0, {}), width, x.counter).value, cs + [x], width, s)
  {
    var rec := Mark(Session(s, 0, {}), width, x.counter).value;
    forall c: nat | c > 0
      ensures Mark(rec, width, c).Err? <==> Spent(cs + [x], width, s, c)
      ensures Mark(rec, width, c) == Err(TooOld) <==> Outrun(cs + [x], width, s, c)
    {
      SpentSnoc(cs, x, width, s, c);
      OutrunSnoc(cs, x, width, s, c);
    }
  }

  /** A check of the session itself. */
  lemma OwnCheck(w: Window, cs: seq<Check>, s: nat, x: Check)
    requires Sound(w) && s in Remembered(w) && Traces(w, cs, s) && x.session == s && x.counter > 0
    ensures Traces(CheckAndSet(w, s, x.counter).0, cs + [x], s)
  {
    Placement(w, s);
    if w.cur.Some? && w.cur.value.id == s && Exact(w.cur.value, cs, w.width, s) { ExactMarks(w.cur.value, cs, x, w.width, s); }
    if w.prev.Some? && w.prev.value.id == s && Exact(w.prev.value, cs, w.width, s) { ExactMarks(w.prev.value, cs, x, w.width, s); }
  }

  lemma FirstCheck(w: Window, cs: seq<Check>, s: nat, x: Check)
    requires Sound(w) && s !in Remembered(w) && !Met(cs, s) && x.session == s && x.counter > 0
    ensures Traces(CheckAndSet(w, s, x.counter).0, cs + [x], s)
  {
    var q := Remembered(w);
    assert forall i :: 0 <= i < |w.retired| ==> w.retired[i] == q[i];
    assert w.prev.Some? ==> w.prev.value.id == q[|w.retired|];
    assert w.cur.Some? ==> w.cur.value.id == q[|q| - 1];
    ExactNew(cs, x, w.width, s);
  }

  /** A check of another session leaves the record, moves it down, or retires it. */
  lemma OtherCheck(w: Window, cs: seq<Check>, s: nat, x: Check)
    requires Sound(w) && s in Remembered(w) && Traces(w, cs, s) && (x.session != s || x.counter == 0)
    requires s in Remembered(CheckAndSet(w, x.session, x.counter).0)
    ensures Traces(CheckAndSet(w, x.session, x.counter).0, cs + [x], s)
  {
    var w' := CheckAndSet(w, x.session, x.counter).0;
    Placement(w, s);
    CheckRemembers(w, x.session, x.counter);
    Placement(w', s);
    if w.cur.Some? && Exact(w.cur.value, cs, w.width, s) { ExactStays(w.cur.value, cs, x, w.width, s); }
    if w.prev.Some? && Exact(w.prev.value, cs, w.width, s) { ExactStays(w.prev.value, cs, x, w.width, s); }
  }

  /** The window and what is known of the session agree. */
  ghost predicate Agrees(w: Window, width: nat, cs: seq<Check>, s: nat) {
    Sound(w) && w.width == width && (s in Remembered(w) <==> Met(cs, s)) && (Met(cs, s) ==> Traces(w, cs, s))
  }

  lemma {:induction false} RunTraces(width: nat, cs: seq<Check>, s: nat)
    requires width > 0 && Kept(width, cs, s)
    ensures Agrees(RunChecks(Fresh(width), cs), width, cs, s)
  {
    if cs == [] {
      assert !Met(cs, s);
    } else {
      var p, x := cs[..|cs| - 1], cs[|cs| - 1];
      KeptBefore(width, cs, s);
      KeptNow(width, cs, s);
      RunTraces(width, p, s);
      assert cs == p + [x];
      AgreesStep(RunChecks(Fresh(width), p), width, p, s, x);
    }
  }

  lemma KeptNow(width: nat, cs: seq<Check>, s: nat)
    requires Kept(width, cs, s)
    ensures Met(cs, s) ==> s in Remembered(RunChecks(Fresh(width), cs))
  {
    assert cs[..|cs|] == cs;
  }

  lemma AgreesStep(w: Window, width: nat, p: seq<Check>, s: nat, x: Check)
    requires Agrees(w, width, p, s) && (Met(p + [x], s) ==> s in Remembered(CheckAndSet(w, x.session, x.counter).0))
    ensures Agrees(CheckAndSet(w, x.session, x.counter).0, width, p + [x], s)
  {
    CheckRemembers(w, x.session, x.counter);
    MetSnoc(p, x, s);
    TraceStep(w, p, s, x);
  }

  lemma KeptBefore(width: nat, cs: seq<Check>, s: nat)
    requires cs != [] && Kept(width, cs, s)
    ensures Kept(width, cs[..|cs| - 1], s)
  {
    var p := cs[..|cs| - 1];
    forall n | 0 <= n <= |p| && Met(p[..n], s) ensures s in Remembered(RunChecks(Fresh(width), p[..n])) { assert p[..n] == cs[..n]; }
  }

  lemma TraceStep(w: Window, p: seq<Check>, s: nat, x: Check)
    requires Sound(w) && (s in Remembered(w) <==> Met(p, s)) && (Met(p, s) ==> Traces(w, p, s))
    requires Met(p + [x], s) ==> s in Remembered(CheckAndSet(w, x.session, x.counter).0)
    ensures Met(p + [x], s) ==> Traces(CheckAndSet(w, x.session, x.counter).0, p + [x], s)
  {
    MetSnoc(p, x, s);
    if Met(p, s) {
      if x.session == s && x.counter > 0 { OwnCheck(w, p, s, x); } else { OtherCheck(w, p, s, x); }
    } else if x.session == s && x.counter > 0 {
      FirstCheck(w, p, s, x);
    }
  }

  /**
   A window that has remembered a session since its first check refuses a pair of it exactly
   when the session is retired, or the pair was checked before, or one a width or more ahead of
   it was.
   */
  lemma RefusedExactly(width: nat, cs: seq<Check>, s: nat, c: nat)
    requires width > 0 && c > 0 && Kept(width, cs, s)
    ensures var w := RunChecks(Fresh(width), cs); !Accepts(w, s, c) <==> s in w.retired || Spent(cs, width, s, c)
  {
    var w := RunChecks(Fresh(width), cs);
    RunTraces(width, cs, s);
    if Met(cs, s) {
      Placement(w, s);
    } else {
      UnknownAccepted(w, s, c);
      assert !Spent(cs, width, s, c);
      assert forall i :: 0 <= i < |w.retired| ==> w.retired[i] == Remembered(w)[i];
    }
  }

  /** And for what reason: no counter, a session retired, one that was outrun, or a repetition. */
  lemma ReasonExactly(width: nat, cs: seq<Check>, s: nat, c: nat)
    requires width > 0 && Kept(width, cs, s)
    ensures var w := RunChecks(Fresh(width), cs);
            CheckAndSet(w, s, c).1 ==
            if c == 0 then Some(ZeroCounter)
            else if s in w.retired then Some(RetiredSession)
            else if Outrun(cs, width, s, c) then Some(TooOld)
            else if Spent(cs, width, s, c) then Some(Replayed)
            else None
  {
    var w := RunChecks(Fresh(width), cs);
    if c > 0 {
      RunTraces(width, cs, s);
      RefusedExactly(width, cs, s, c);
      if Met(cs, s) { Placement(w, s); } else { assert !Outrun(cs, width, s, c); }
    }
  }

  /** Checked once and remembered since, a pair stays refused. */
  lemma {:induction false} StaysRefused(w: Window, session: nat, counter: nat, cs: seq<Check>)
    requires Sound(w) && session in Remembered(w) && counter > 0 && !Accepts(w, session, counter)
    requires forall n :: 0 <= n <= |cs| ==> session in Remembered(RunChecks(w, cs[..n]))
    ensures Sound(RunChecks(w, cs)) && !Accepts(RunChecks(w, cs), session, counter)
  {
    if cs != [] {
      var p, last := cs[..|cs| - 1], cs[|cs| - 1];
      forall n | 0 <= n <= |p| ensures session in Remembered(RunChecks(w, p[..n])) { assert p[..n] == cs[..n]; }
      StaysRefused(w, session, counter, p);
      assert p == cs[..|p|] && cs == cs[..|cs|];
      RefusedStaysRefused(RunChecks(w, p), session, counter, last.session, last.counter);
      CheckRemembers(RunChecks(w, p), last.session, last.counter);
    }
  }
}
