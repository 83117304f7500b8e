/**
 Draining (dkms/src/admission.rs; the check in dkms/src/etsi_http/admission_layer.rs; `drain`
 in dkms/src/grpc_server.rs), one atomic operation per step. Waking all waiters moves the
 notification on by one generation; a waiter wakes once its captured generation has passed.
 */
module Drain {
  /** A request: it saw the door open, holds its guard, or has let go of the last guard and is
      about to notify. Then it is gone. */
  datatype Handler = Checked | Holding | Notifying

  /** `wait_drained`: before its first check, after it, after subscribing, asleep, returned. */
  datatype Waiter = Top | Subscribing | Rechecking(seen: nat) | Parked(seen: nat) | Returned

  datatype State = State(accepting: bool, inflight: nat, generation: nat,
                         handlers: map<nat, Handler>, waiters: map<nat, Waiter>)

  const INITIAL := State(true, 0, 0, map[], map[])

  datatype Step =
    | Arrive(h: nat) | Acquire(h: nat) | Release(h: nat) | Notify(h: nat)
    | Enter(w: nat) | FirstCheck(w: nat) | Subscribe(w: nat) | SecondCheck(w: nat) | Wake(w: nat)
    | Close | Reopen

  predicate At(s: State, h: nat, pc: Handler) { h in s.handlers && s.handlers[h] == pc }

  function HandlerStep(s: State, step: Step): State {
    match step
    case Arrive(h) => if h in s.handlers || !s.accepting then s else s.(handlers := s.handlers[h := Checked])
    case Acquire(h) =>
      if !At(s, h, Checked) then s else s.(inflight := s.inflight + 1, handlers := s.handlers[h := Holding])
    case Release(h) =>
      if !At(s, h, Holding) || s.inflight == 0 then s else
      s.(inflight := s.inflight - 1, handlers := if s.inflight == 1 then s.handlers[h := Notifying] else s.handlers - {h})
    case Notify(h) =>
      if !At(s, h, Notifying) then s else s.(generation := s.generation + 1, handlers := s.handlers - {h})
    case _ => s
  }

  function WaiterStep(s: State, w: nat, pc: Waiter): State { s.(waiters := s.waiters[w := pc]) }

  function Next(s: State, step: Step): State {
    match step
    case Enter(w) => if w in s.waiters then s else WaiterStep(s, w, Top)
    case FirstCheck(w) =>
      if w !in s.waiters || !s.waiters[w].Top? then s
      else WaiterStep(s, w, if s.inflight == 0 then Returned else Subscribing)
    case Subscribe(w) =>
      if w !in s.waiters || !s.waiters[w].Subscribing? then s else WaiterStep(s, w, Rechecking(s.generation))
    case SecondCheck(w) =>
      if w !in s.waiters || !s.waiters[w].Rechecking? then s
      else WaiterStep(s, w, if s.inflight == 0 then Returned else Parked(s.waiters[w].seen))
    case Wake(w) =>
      if w !in s.waiters || !s.waiters[w].Parked? || s.waiters[w].seen == s.generation then s else WaiterStep(s, w, Top)
    case Close => s.(accepting := false)
    case Reopen => s.(accepting := true)
    case _ => HandlerStep(s, step)
  }

  function After(s: State, steps: seq<Step>): State {
    if steps == [] then s else Next(After(s, steps[..|steps| - 1]), steps[|steps| - 1])
  }

  function Run(steps: seq<Step>): State { After(INITIAL, steps) }

  // ---- the invariant ----

  /** The requests that hold a guard. */
  function Holders(s: State): set<nat> { set h | h in s.handlers && s.handlers[h] == Holding }

  ghost predicate CounterExact(s: State) { s.inflight == |Holders(s)| }

  ghost predicate SomeNotifying(s: State) { exists h :: At(s, h, Notifying) }

  /** A sleeper whose generation is current still has someone to wake it. */
  ghost predicate NoLostWakeUp(s: State) {
    forall w :: w in s.waiters && s.waiters[w].Parked? && s.waiters[w].seen == s.generation ==>
      s.inflight > 0 || SomeNotifying(s)
  }

  ghost predicate SeenPast(s: State) {
    forall w :: w in s.waiters && (s.waiters[w].Parked? || s.waiters[w].Rechecking?) ==> s.waiters[w].seen <= s.generation
  }

  ghost predicate Inv(s: State) { CounterExact(s) && NoLostWakeUp(s) && SeenPast(s) }

  lemma AcquireKeepsInv(s: State, h: nat)
    requires Inv(s)
    ensures Inv(Next(s, Acquire(h)))
  {
    var s' := Next(s, Acquire(h));
    if At(s, h, Checked) { assert Holders(s') == Holders(s) + {h} && h !in Holders(s); }
  }

  lemma ReleaseKeepsInv(s: State, h: nat)
    requires Inv(s)
    ensures Inv(Next(s, Release(h)))
  {
    var s' := Next(s, Release(h));
    if At(s, h, Holding) {
      assert h in Holders(s) && Holders(s') == Holders(s) - {h};
      if s.inflight == 1 { assert At(s', h, Notifying); }
    }
  }

  lemma NotifyKeepsInv(s: State, h: nat)
    requires Inv(s)
    ensures Inv(Next(s, Notify(h)))
  {
    var s' := Next(s, Notify(h));
    if At(s, h, Notifying) {
      assert Holders(s') == Holders(s);
      assert forall w :: w in s'.waiters && s'.waiters[w].Parked? ==> s'.waiters[w].seen < s'.generation;
    }
  }

  /** Steps that leave requests alone. */
  lemma WaiterKeepsInv(s: State, step: Step)
    requires Inv(s) && !step.Arrive? && !step.Acquire? && !step.Release? && !step.Notify?
    ensures Inv(Next(s, step))
  {
    var s' := Next(s, step);
    assert Holders(s') == Holders(s);
    assert SomeNotifying(s) ==> SomeNotifying(s') by {
      if SomeNotifying(s) {
        var h :| At(s, h, Notifying);
        assert At(s', h, Notifying);
      }
    }
  }

  lemma ArriveKeepsInv(s: State, h: nat)
    requires Inv(s)
    ensures Inv(Next(s, Arrive(h)))
  {
    var s' := Next(s, Arrive(h));
    assert Holders(s') == Holders(s);
    if SomeNotifying(s) {
      var k :| At(s, k, Notifying);
      assert At(s', k, Notifying);
    }
  }

  lemma NextKeepsInv(s: State, step: Step)
    requires Inv(s)
    ensures Inv(Next(s, step))
  {
    match step
    case Arrive(h) => ArriveKeepsInv(s, h);
    case Acquire(h) => AcquireKeepsInv(s, h);
    case Release(h) => ReleaseKeepsInv(s, h);
    case Notify(h) => NotifyKeepsInv(s, h);
    case _ => WaiterKeepsInv(s, step);
  }

  lemma {:induction false} AfterKeepsInv(s: State, steps: seq<Step>)
    requires Inv(s)
    ensures Inv(After(s, steps))
  {
    if steps != [] {
      AfterKeepsInv(s, steps[..|steps| - 1]);
      NextKeepsInv(After(s, steps[..|steps| - 1]), steps[|steps| - 1]);
    }
  }

  /** In every interleaving the counter is the number of guards held, and no wake-up is lost. */
  lemma RunKeepsInv(steps: seq<Step>)
    ensures Inv(Run(steps))
  {
    assert Holders(INITIAL) == {};
    AfterKeepsInv(INITIAL, steps);
  }

  // ---- progress ----

  /** What a waiter does next. */
  function Turn(s: State, w: nat): Step {
    if w !in s.waiters then Enter(w) else
    match s.waiters[w]
    case Top => FirstCheck(w)
    case Subscribing => Subscribe(w)
    case Rechecking(_) => SecondCheck(w)
    case Parked(_) => Wake(w)
    case Returned => Enter(w)
  }

  function Turns(s: State, w: nat, n: nat): State {
    if n == 0 then s else Next(Turns(s, w, n - 1), Turn(Turns(s, w, n - 1), w))
  }

  /** A sleeper is woken only by a notification made since it subscribed. */
  lemma WokenByNotice(steps: seq<Step>, step: Step, w: nat)
    requires var s := Run(steps); w in s.waiters && s.waiters[w].Parked? && Next(s, step).waiters[w] != s.waiters[w]
    ensures step == Wake(w) && Run(steps).waiters[w].seen < Run(steps).generation
  {
    RunKeepsInv(steps);
  }

  /** A waiter returns only at a moment when no request holds a guard. */
  lemma ReturnsDrained(steps: seq<Step>, step: Step, w: nat)
    requires var s := Run(steps); w in Next(s, step).waiters && Next(s, step).waiters[w] == Returned
    requires w in Run(steps).waiters ==> Run(steps).waiters[w] != Returned
    ensures Run(steps).inflight == 0 && forall h :: h in Run(steps).handlers ==> Run(steps).handlers[h] != Holding
  {
    var s := Run(steps);
    RunKeepsInv(steps);
    assert Holders(s) == {};
    forall h | h in s.handlers ensures s.handlers[h] != Holding { assert h !in Holders(s); }
  }

  /** Once every request has let go and notified, each waiter returns by its own next two steps. */
  lemma WaitersReturn(steps: seq<Step>, w: nat)
    requires var s := Run(steps); w in s.waiters && forall h :: h in s.handlers ==> s.handlers[h] == Checked
    ensures var s' := Turns(Run(steps), w, 2); s'.waiters[w] == Returned
  {
    var s := Run(steps);
    RunKeepsInv(steps);
    assert Holders(s) == {};
    assert !SomeNotifying(s);
    assert Turns(s, w, 1) == Next(s, Turn(s, w));
  }

  // ---- what draining promises ----

  ghost predicate SomeChecked(s: State) { exists h :: At(s, h, Checked) }

  ghost predicate NoReopen(steps: seq<Step>) { forall i :: 0 <= i < |steps| ==> steps[i] != Reopen }

  lemma {:induction false} StaysDrained(s: State, steps: seq<Step>)
    requires Inv(s) && !s.accepting && s.inflight == 0 && !SomeChecked(s) && NoReopen(steps)
    ensures var s' := After(s, steps); Inv(s') && !s'.accepting && s'.inflight == 0 && !SomeChecked(s')
  {
    if steps != [] {
      var init, step := steps[..|steps| - 1], steps[|steps| - 1];
      forall i | 0 <= i < |init| ensures init[i] != Reopen { assert init[i] == steps[i]; }
      StaysDrained(s, init);
      var mid := After(s, init);
      NextKeepsInv(mid, step);
      assert step != Reopen;
      forall h ensures !At(Next(mid, step), h, Checked) { assert !At(mid, h, Checked); }
    }
  }

  /** A request is served after this state although the door stays closed. */
  ghost predicate ServesLater(s: State) {
    exists steps :: NoReopen(steps) && After(s, steps).inflight > 0
  }

  /**
   When a waiter returns after the door was closed, requests may still be served: exactly
   when one of them has passed its check and not yet taken its guard.
   */
  lemma DrainedExactly(steps: seq<Step>)
    requires var s := Run(steps); !s.accepting && s.inflight == 0
    ensures ServesLater(Run(steps)) <==> SomeChecked(Run(steps))
  {
    var s := Run(steps);
    RunKeepsInv(steps);
    if SomeChecked(s) {
      var h :| At(s, h, Checked);
      assert After(s, [Acquire(h)]) == Next(After(s, []), Acquire(h));
      assert NoReopen([Acquire(h)]) && After(s, [Acquire(h)]).inflight > 0;
    } else if ServesLater(s) {
      var more :| NoReopen(more) && After(s, more).inflight > 0;
      StaysDrained(s, more);
    }
  }

  /** Such a run: a request passes the check, the door closes, the waiter returns at once, and
      the request is served. */
  lemma ServedAfterDrain()
    ensures var drained := Run([Arrive(0), Close, Enter(0), FirstCheck(0)]);
            drained.waiters[0] == Returned && Next(drained, Acquire(0)).inflight == 1
  {
    var r1 := After(INITIAL, [Arrive(0)]);
    assert [Arrive(0), Close][..1] == [Arrive(0)] && [Arrive(0), Close, Enter(0)][..2] == [Arrive(0), Close];
    assert [Arrive(0), Close, Enter(0), FirstCheck(0)][..3] == [Arrive(0), Close, Enter(0)];
    assert After(INITIAL, [Arrive(0)][..0]) == INITIAL;
    assert r1.handlers == map[0 := Checked];
    assert After(INITIAL, [Arrive(0), Close]) == Next(r1, Close);
    assert After(INITIAL, [Arrive(0), Close, Enter(0)]) == Next(Next(r1, Close), Enter(0));
  }
}
