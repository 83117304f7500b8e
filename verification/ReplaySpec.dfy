/**
 What the anti-replay window does (common/src/crypto/frame_mac.rs, `ReplayWindow` in the
 mode its default constructor selects, where any unseen session is adopted at once).

 A session keeps its highest accepted counter and, of the `width` counters ending there,
 the accepted ones. The window follows the current session, keeps the previous one alive,
 and remembers the eight sessions before those only to refuse them.
 */
module ReplaySpec {
  import opened Wrappers

  const RETIRED_KEPT: nat := 8

  /** How many sessions a window remembers: the retired ones, the previous and the current. */
  const REMEMBERED: nat := RETIRED_KEPT + 2

  datatype ReplayError = ZeroCounter | RetiredSession | TooOld | Replayed

  datatype Session = Session(id: nat, highest: nat, seen: set<nat>)

  datatype Window = Window(width: nat, cur: Option<Session>, prev: Option<Session>, retired: seq<nat>)

  function Fresh(width: nat): Window {
    Window(width, None, None, [])
  }

  /** Accept or refuse `counter` within one session. */
  function Mark(s: Session, width: nat, counter: nat): Result<Session, ReplayError> {
    if counter > s.highest then
      Ok(Session(s.id, counter, (set c | c in s.seen && c + width > counter) + {counter}))
    else if s.highest - counter >= width then Err(TooOld)
    else if counter in s.seen then Err(Replayed)
    else Ok(s.(seen := s.seen + {counter}))
  }

  /** Drop the oldest entry beyond `n`. */
  function Bounded(q: seq<nat>, n: nat): seq<nat> {
    if |q| > n then q[1..] else q
  }

  /** Make an unseen `session` the current one. */
  function Adopt(w: Window, session: nat): Window {
    if w.cur.None? then w.(cur := Some(Session(session, 0, {})))
    else w.(cur := Some(Session(session, 0, {})),
            prev := w.cur,
            retired := if w.prev.None? then w.retired else Bounded(w.retired + [w.prev.value.id], RETIRED_KEPT))
  }

  function CheckAndSet(w: Window, session: nat, counter: nat): (r: (Window, Option<ReplayError>)) {
    if counter == 0 then (w, Some(ZeroCounter))
    else if session in w.retired then (w, Some(RetiredSession))
    else if w.prev.Some? && w.prev.value.id == session then
      match Mark(w.prev.value, w.width, counter)
      case Ok(s) => (w.(prev := Some(s)), None)
      case Err(e) => (w, Some(e))
    else
      var w1 := if w.cur.Some? && w.cur.value.id == session then w else Adopt(w, session);
      match Mark(w1.cur.value, w.width, counter)
      case Ok(s) => (w1.(cur := Some(s)), None)
      case Err(e) => (w1, Some(e))
  }

  function Accepts(w: Window, session: nat, counter: nat): bool {
    CheckAndSet(w, session, counter).1.None?
  }

  /** The sessions the window knows, oldest adoption first. */
  function Remembered(w: Window): seq<nat> {
    w.retired + (if w.prev.Some? then [w.prev.value.id] else []) + (if w.cur.Some? then [w.cur.value.id] else [])
  }

  ghost predicate NoDup(q: seq<nat>) {
    forall i, j :: 0 <= i < j < |q| ==> q[i] != q[j]
  }

  ghost predicate Sound(w: Window) {
    && w.width > 0
    && |w.retired| <= RETIRED_KEPT
    && (w.cur.None? ==> w.prev.None?)
    && (w.prev.None? ==> w.retired == [])
    && NoDup(Remembered(w))
  }

  lemma AdoptRemembers(w: Window, session: nat)
    requires Sound(w) && session !in Remembered(w)
    ensures Remembered(Adopt(w, session)) == Bounded(Remembered(w) + [session], REMEMBERED)
  {
    var q, a := Remembered(w), Adopt(w, session);
    if w.cur.None? {
      assert q == [] && Remembered(a) == [session];
    } else if w.prev.None? {
      assert Remembered(a) == q + [session];
    } else {
      var r := w.retired + [w.prev.value.id];
      assert q == r + [w.cur.value.id];
      if |r| > RETIRED_KEPT {
        assert Remembered(a) == r[1..] + [w.cur.value.id] + [session] == (q + [session])[1..];
      } else {
        assert Remembered(a) == q + [session];
      }
    }
  }

  lemma BoundedNoDup(q: seq<nat>, x: nat, n: nat)
    requires NoDup(q) && x !in q
    ensures NoDup(Bounded(q + [x], n))
  {
    assert NoDup(q + [x]);
  }

  lemma CheckAdopts(w: Window, session: nat, counter: nat)
    requires Sound(w) && counter > 0 && session !in Remembered(w)
    ensures var w' := CheckAndSet(w, session, counter).0; var a := Adopt(w, session);
            && w'.width == w.width && w'.prev == a.prev && w'.retired == a.retired
            && w'.cur.Some? && a.cur.Some? && w'.cur.value.id == a.cur.value.id == session
            && Remembered(w') == Remembered(a)
  {
    var q := Remembered(w);
    assert forall i :: 0 <= i < |w.retired| ==> w.retired[i] == q[i];
    assert w.prev.Some? ==> w.prev.value.id == q[|w.retired|];
    assert w.cur.Some? ==> w.cur.value.id == q[|q| - 1];
  }

  /** A check adopts a session it does not remember, forgetting the oldest beyond ten,
      and otherwise remembers exactly what it did before. */
  lemma CheckRemembers(w: Window, session: nat, counter: nat)
    requires Sound(w)
    ensures var w' := CheckAndSet(w, session, counter).0;
            && Sound(w') && w'.width == w.width
            && Remembered(w') == if counter == 0 || session in Remembered(w) then Remembered(w)
                                 else Bounded(Remembered(w) + [session], REMEMBERED)
  {
    var q := Remembered(w);
    if counter > 0 && session !in q {
      CheckAdopts(w, session, counter);
      AdoptRemembers(w, session);
      BoundedNoDup(q, session, REMEMBERED);
    } else if counter > 0 {
      CheckKnown(w, session, counter);
    }
  }

  lemma CheckKnown(w: Window, session: nat, counter: nat)
    requires Sound(w) && session in Remembered(w)
    ensures var w' := CheckAndSet(w, session, counter).0;
            && w'.width == w.width && w'.retired == w.retired && Remembered(w') == Remembered(w)
            && w'.cur.Some? == w.cur.Some? && w'.prev.Some? == w.prev.Some?
  {
    Placement(w, session);
  }

  /** An accepted pair is refused from then on, as long as its session is remembered. */
  lemma AcceptedThenRefused(w: Window, session: nat, counter: nat)
    requires Sound(w) && Accepts(w, session, counter)
    ensures var w' := CheckAndSet(w, session, counter).0;
            session in Remembered(w') && !Accepts(w', session, counter)
  {
    var w' := CheckAndSet(w, session, counter).0;
    CheckRemembers(w, session, counter);
    var q := Remembered(w);
    if session !in q { assert session == (q + [session])[|q|]; }
    if w.prev.Some? && w.prev.value.id == session {
      assert w'.prev.value.id == session;
    } else {
      assert w'.cur.value.id == session;
      assert w'.prev.Some? ==> w'.prev.value.id == Remembered(w')[|w'.retired|] && Remembered(w')[|Remembered(w')| - 1] == session;
    }
  }

  /** Accepting other counters never makes a refused one acceptable again. */
  lemma MarkKeepsRefused(s: Session, width: nat, c: nat, counter: nat)
    requires Mark(s, width, c).Err? && Mark(s, width, counter).Ok?
    ensures Mark(Mark(s, width, counter).value, width, c).Err?
  {
  }

  /** Where a remembered session is kept. */
  lemma Placement(w: Window, s: nat)
    requires Sound(w) && s in Remembered(w)
    ensures s in w.retired || (w.prev.Some? && w.prev.value.id == s) || (w.cur.Some? && w.cur.value.id == s)
    ensures w.prev.Some? ==> w.prev.value.id !in w.retired
    ensures w.cur.Some? ==> w.cur.value.id !in w.retired && (w.prev.Some? ==> w.prev.value.id != w.cur.value.id)
  {
    var q := Remembered(w);
    assert w.prev.Some? ==> w.prev.value.id == q[|w.retired|];
    assert w.cur.Some? ==> w.cur.value.id == q[|q| - 1];
    assert forall i :: 0 <= i < |w.retired| ==> w.retired[i] == q[i];
  }

  lemma RefusedStaysRefused(w: Window, s: nat, c: nat, session: nat, counter: nat)
    requires Sound(w) && s in Remembered(w) && c > 0 && !Accepts(w, s, c)
    ensures var w' := CheckAndSet(w, session, counter).0;
            s in Remembered(w') ==> !Accepts(w', s, c)
  {
    CheckRemembers(w, session, counter);
    var w' := CheckAndSet(w, session, counter).0;
    if s in Remembered(w') {
      Placement(w, s);
      Placement(w', s);
      if w.prev.Some? && w.prev.value.id == s && session == s && Accepts(w, session, counter) {
        MarkKeepsRefused(w.prev.value, w.width, c, counter);
      }
      if w.cur.Some? && w.cur.value.id == s && session == s && Accepts(w, session, counter) {
        MarkKeepsRefused(w.cur.value, w.width, c, counter);
      }
      if session !in Remembered(w) { assert s != session; }
    }
  }

  // ---- whole runs ----

  datatype Check = Check(session: nat, counter: nat)

  function RunChecks(w: Window, cs: seq<Check>): Window {
    if cs == [] then w
    else CheckAndSet(RunChecks(w, cs[..|cs| - 1]), cs[|cs| - 1].session, cs[|cs| - 1].counter).0
  }

  /** How many checks of the run made a new session current. */
  function Adoptions(w: Window, cs: seq<Check>): nat {
    if cs == [] then 0 else
    var before, c := RunChecks(w, cs[..|cs| - 1]), cs[|cs| - 1];
    Adoptions(w, cs[..|cs| - 1]) + if c.counter > 0 && c.session !in Remembered(before) then 1 else 0
  }

  lemma UnknownAccepted(w: Window, s: nat, c: nat)
    requires Sound(w) && s !in Remembered(w) && c > 0
    ensures Accepts(w, s, c)
  {
    var q := Remembered(w);
    assert forall i :: 0 <= i < |w.retired| ==> w.retired[i] == q[i];
    assert w.prev.Some? ==> w.prev.value.id == q[|w.retired|];
    assert w.cur.Some? ==> w.cur.value.id == q[|q| - 1];
  }

  /** Appending an entry pushes every other one away from the end, and out beyond ten. */
  lemma PositionAfterAdoption(q: seq<nat>, s: nat, k: nat, x: nat)
    requires NoDup(q) && k < |q| <= REMEMBERED && q[|q| - 1 - k] == s && x != s
    ensures var q' := Bounded(q + [x], REMEMBERED);
            if k + 1 < REMEMBERED then k + 1 < |q'| && q'[|q'| - 1 - (k + 1)] == s else s !in q'
  {
    if k + 1 == REMEMBERED {
      assert q[0] == s;
      assert forall i :: 1 <= i < |q + [x]| ==> (q + [x])[i] != s;
    }
  }

  /** `k` sessions were adopted after `s`, which received nothing meanwhile. */
  ghost predicate Follows(w: Window, s: Session, k: nat) {
    var q := Remembered(w);
    && Sound(w)
    && (if k < REMEMBERED then k < |q| && q[|q| - 1 - k] == s.id else s.id !in q)
    && (k == 0 ==> w.cur == Some(s))
    && (k == 1 ==> w.prev == Some(s))
  }

  /** A check of another session moves `s` down one place exactly when it adopts. */
  lemma FollowsPlace(w: Window, s: Session, k: nat, x: Check)
    requires Follows(w, s, k) && x.session != s.id
    ensures var w' := CheckAndSet(w, x.session, x.counter).0;
            var adopts := x.counter > 0 && x.session !in Remembered(w);
            && (k == 0 ==> if adopts then w'.prev == Some(s) else w'.cur == Some(s))
            && (k == 1 && !adopts ==> w'.prev == Some(s))
  {
    var q := Remembered(w);
    assert w.prev.Some? ==> w.prev.value.id == q[|w.retired|];
    assert w.cur.Some? ==> w.cur.value.id == q[|q| - 1];
    assert forall i :: 0 <= i < |w.retired| ==> w.retired[i] == q[i];
    if x.session in q { Placement(w, x.session); }
  }

  lemma FollowsStep(w: Window, s: Session, k: nat, x: Check)
    requires Follows(w, s, k) && x.session != s.id
    ensures Follows(CheckAndSet(w, x.session, x.counter).0, s,
                    k + if x.counter > 0 && x.session !in Remembered(w) then 1 else 0)
  {
    var q, w' := Remembered(w), CheckAndSet(w, x.session, x.counter).0;
    CheckRemembers(w, x.session, x.counter);
    FollowsPlace(w, s, k, x);
    if x.counter > 0 && x.session !in q { FollowsAdoption(q, Remembered(w'), s.id, k, x.session); }
  }

  lemma FollowsAdoption(q: seq<nat>, q': seq<nat>, s: nat, k: nat, x: nat)
    requires NoDup(q) && |q| <= REMEMBERED && x != s && q' == Bounded(q + [x], REMEMBERED)
    requires if k < REMEMBERED then k < |q| && q[|q| - 1 - k] == s else s !in q
    ensures if k + 1 < REMEMBERED then k + 1 < |q'| && q'[|q'| - 1 - (k + 1)] == s else s !in q'
  {
    if k < REMEMBERED { PositionAfterAdoption(q, s, k, x); }
  }

  lemma {:induction false} RunFollows(w: Window, s: Session, cs: seq<Check>)
    requires Follows(w, s, 0)
    requires forall i :: 0 <= i < |cs| ==> cs[i].session != s.id
    ensures Follows(RunChecks(w, cs), s, Adoptions(w, cs)) && RunChecks(w, cs).width == w.width
  {
    if cs != [] {
      var p := cs[..|cs| - 1];
      RunFollows(w, s, p);
      FollowsStep(RunChecks(w, p), s, Adoptions(w, p), cs[|cs| - 1]);
      CheckRemembers(RunChecks(w, p), cs[|cs| - 1].session, cs[|cs| - 1].counter);
    }
  }

  lemma FollowedAccepts(w: Window, s: Session, k: nat, c: nat)
    requires Follows(w, s, k)
    ensures Accepts(w, s.id, c) <==> c > 0 && if k <= 1 then Mark(s, w.width, c).Ok? else k >= REMEMBERED
  {
    var q := Remembered(w);
    if k < REMEMBERED {
      assert s.id in q;
      Placement(w, s.id);
      assert 2 <= k ==> q[|q| - 1 - k] == w.retired[|q| - 1 - k];
    } else if c > 0 {
      UnknownAccepted(w, s.id, c);
    }
  }

  /**
   What becomes of the current session while frames of other sessions come in. With at most
   one of those adopted, its counters are judged as before. From the second adoption on,
   all of them are refused, unseen ones too. From the tenth on, all of them are accepted,
   seen ones too: the retired list holds eight sessions, so the session is forgotten.
   */
  lemma AcceptedExactly(w: Window, c: nat, cs: seq<Check>)
    requires Sound(w) && w.cur.Some?
    requires forall i :: 0 <= i < |cs| ==> cs[i].session != w.cur.value.id
    ensures var n := Adoptions(w, cs);
            Accepts(RunChecks(w, cs), w.cur.value.id, c)
            <==> c > 0 && if n <= 1 then Mark(w.cur.value, w.width, c).Ok? else n >= REMEMBERED
  {
    RunFollows(w, w.cur.value, cs);
    FollowedAccepts(RunChecks(w, cs), w.cur.value, Adoptions(w, cs), c);
  }
}
