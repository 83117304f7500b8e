/**
 The demand counter (dkms/src/demand_tracker.rs, `EwmaCounter`), over exact reals: an
 exponentially weighted average that only moves on when someone looks.
 */
module Ewma {
  import opened Widths

  datatype State = State(ewma: real, count: nat, start: int)

  /** Weight of a new sample and length of a window in milliseconds. */
  datatype Cfg = Cfg(alpha: real, window: nat)

  function SatAdd(a: nat, b: nat): nat { if a + b > U64_MAX then U64_MAX else a + b }

  /** Keys per second of a window that counted `n`. */
  function Sample(c: Cfg, n: nat): real
    requires c.window > 0
  {
    n as real * 1000.0 / c.window as real
  }

  function Blend(c: Cfg, ewma: real, n: nat): real
    requires c.window > 0
  {
    ewma * (1.0 - c.alpha) + Sample(c, n) * c.alpha
  }

  function Tick(c: Cfg, s: State): State
    requires c.window > 0
  {
    State(Blend(c, s.ewma, s.count), 0, s.start + c.window)
  }

  function Advance(c: Cfg, s: State, now: int): State
    requires c.window > 0
    decreases now - s.start
  {
    if now - s.start >= c.window then Advance(c, Tick(c, s), now) else s
  }

  class EwmaCounter {
    const cfg: Cfg
    var s: State

    ghost predicate Valid()
      reads this
    {
      cfg.window > 0
    }

    constructor (alpha: real, windowMs: nat, now: int)
      ensures Valid() && cfg == Cfg(alpha, if windowMs == 0 then 1 else windowMs) && s == State(0.0, 0, now)
    {
      cfg := Cfg(alpha, if windowMs == 0 then 1 else windowMs);
      s := State(0.0, 0, now);
    }

    method AdvanceTo(now: int)
      requires Valid()
      modifies this`s
      ensures s == Advance(cfg, old(s), now)
    {
      while now - s.start >= cfg.window
        invariant Advance(cfg, s, now) == Advance(cfg, old(s), now)
        decreases now - s.start
      {
        s := Tick(cfg, s);
      }
    }

    method Record(n: nat, now: int)
      requires Valid()
      modifies this`s
      ensures s == After(cfg, old(s), Add(n, now))
      ensures var before := Advance(cfg, old(s), now).count; s.count == if before + n <= U64_MAX then before + n else U64_MAX
    {
      AdvanceTo(now);
      s := s.(count := SatAdd(s.count, n));
    }

    method Rate(now: int) returns (r: real)
      requires Valid()
      modifies this`s
      ensures s == After(cfg, old(s), Look(now)) && r == s.ewma
    {
      AdvanceTo(now);
      r := s.ewma;
    }
  }

  // ---- runs ----

  datatype Event = Add(n: nat, now: int) | Look(now: int)

  function After(c: Cfg, s: State, e: Event): State
    requires c.window > 0
  {
    var a := Advance(c, s, e.now);
    match e case Add(n, _) => a.(count := SatAdd(a.count, n)) case Look(_) => a
  }

  function Run(c: Cfg, t0: int, evs: seq<Event>): State
    requires c.window > 0
  {
    if evs == [] then State(0.0, 0, t0) else After(c, Run(c, t0, evs[..|evs| - 1]), evs[|evs| - 1])
  }

  /** The clock does not go back. */
  ghost predicate Ordered(t0: int, evs: seq<Event>) {
    && (forall i :: 0 <= i < |evs| ==> t0 <= evs[i].now)
    && (forall i, j :: 0 <= i < j < |evs| ==> evs[i].now <= evs[j].now)
  }

  function Total(evs: seq<Event>): nat {
    if evs == [] then 0
    else Total(evs[..|evs| - 1]) + match evs[|evs| - 1] case Add(n, _) => n case Look(_) => 0
  }

  // ---- the eager average ----

  function Start(c: Cfg, t0: int, j: nat): int { if j == 0 then t0 else Start(c, t0, j - 1) + c.window }

  /** Keys recorded in `[lo, hi)`. */
  function Counted(evs: seq<Event>, lo: int, hi: int): nat {
    if evs == [] then 0 else
    Counted(evs[..|evs| - 1], lo, hi) + match evs[|evs| - 1] case Add(n, t) => (if lo <= t < hi then n else 0) case Look(_) => 0
  }

  /** The average after `k` windows, one update per window. */
  function Eager(c: Cfg, t0: int, evs: seq<Event>, k: nat): real
    requires c.window > 0
  {
    if k == 0 then 0.0
    else Blend(c, Eager(c, t0, evs, k - 1), Counted(evs, Start(c, t0, k - 1), Start(c, t0, k)))
  }

  lemma {:induction false} CountedNone(evs: seq<Event>, lo: int, hi: int)
    requires forall i :: 0 <= i < |evs| ==> evs[i].now < lo
    ensures Counted(evs, lo, hi) == 0
  {
    if evs != [] { CountedNone(evs[..|evs| - 1], lo, hi); }
  }

  lemma CountedSnoc(evs: seq<Event>, e: Event, lo: int, hi: int)
    ensures Counted(evs + [e], lo, hi) == Counted(evs, lo, hi) + match e case Add(n, t) => (if lo <= t < hi then n else 0) case Look(_) => 0
  {
    assert (evs + [e])[..|evs|] == evs;
  }

  lemma {:induction false} CountedAtMost(evs: seq<Event>, lo: int, hi: int)
    ensures Counted(evs, lo, hi) <= Total(evs)
  {
    if evs != [] { CountedAtMost(evs[..|evs| - 1], lo, hi); }
  }

  lemma {:induction false} StartLeq(c: Cfg, t0: int, j: nat, k: nat)
    requires j <= k
    ensures Start(c, t0, j) <= Start(c, t0, k)
    decreases k
  {
    if j < k { StartLeq(c, t0, j, k - 1); }
  }

  /** An event in a later window does not change the earlier ones. */
  lemma {:induction false} EagerSame(c: Cfg, t0: int, evs: seq<Event>, e: Event, k: nat)
    requires c.window > 0 && Start(c, t0, k) <= e.now
    ensures Eager(c, t0, evs + [e], k) == Eager(c, t0, evs, k)
  {
    if k > 0 {
      EagerSame(c, t0, evs, e, k - 1);
      CountedSnoc(evs, e, Start(c, t0, k - 1), Start(c, t0, k));
    }
  }

  /** The lazy state is the eager average after `k` windows and the count of the next one. */
  ghost predicate Matches(c: Cfg, t0: int, evs: seq<Event>, s: State, k: nat)
    requires c.window > 0
  {
    var lo := Start(c, t0, k);
    && s == State(Eager(c, t0, evs, k), Counted(evs, lo, lo + c.window), lo)
    && forall i :: 0 <= i < |evs| ==> evs[i].now < lo + c.window
  }

  lemma TickMatches(c: Cfg, t0: int, evs: seq<Event>, s: State, k: nat)
    requires c.window > 0 && Matches(c, t0, evs, s, k)
    ensures Matches(c, t0, evs, Tick(c, s), k + 1)
  {
    CountedNone(evs, Start(c, t0, k + 1), Start(c, t0, k + 1) + c.window);
  }

  lemma {:induction false} AdvanceMatches(c: Cfg, t0: int, evs: seq<Event>, s: State, k: nat, now: int) returns (k': nat)
    requires c.window > 0 && Matches(c, t0, evs, s, k) && s.start <= now
    ensures Matches(c, t0, evs, Advance(c, s, now), k') && Start(c, t0, k') <= now < Start(c, t0, k') + c.window
    decreases now - s.start
  {
    if now - s.start >= c.window {
      TickMatches(c, t0, evs, s, k);
      k' := AdvanceMatches(c, t0, evs, Tick(c, s), k + 1, now);
    } else {
      k' := k;
    }
  }

  /** The lazy counter equals the eager one, which updates once per window. */
  lemma {:induction false} LazyIsEager(c: Cfg, t0: int, evs: seq<Event>) returns (k: nat)
    requires c.window > 0 && Ordered(t0, evs) && Total(evs) <= U64_MAX
    ensures Matches(c, t0, evs, Run(c, t0, evs), k)
    ensures evs != [] ==> Start(c, t0, k) <= evs[|evs| - 1].now
    ensures evs == [] ==> k == 0
  {
    if evs == [] {
      k := 0;
    } else {
      var init, e := evs[..|evs| - 1], evs[|evs| - 1];
      var j := LazyIsEager(c, t0, init);
      if init != [] { assert init[|init| - 1] == evs[|init| - 1]; }
      k := AdvanceMatches(c, t0, init, Run(c, t0, init), j, e.now);
      assert evs == init + [e];
      EagerSame(c, t0, init, e, k);
      CountedSnoc(init, e, Start(c, t0, k), Start(c, t0, k) + c.window);
      CountedAtMost(evs, Start(c, t0, k), Start(c, t0, k) + c.window);
    }
  }

  // ---- what follows ----

  function Adds(evs: seq<Event>): seq<Event> {
    if evs == [] then [] else Adds(evs[..|evs| - 1]) + if evs[|evs| - 1].Add? then [evs[|evs| - 1]] else []
  }

  lemma {:induction false} CountedAdds(evs: seq<Event>, lo: int, hi: int)
    ensures Counted(evs, lo, hi) == Counted(Adds(evs), lo, hi)
  {
    if evs != [] {
      CountedAdds(evs[..|evs| - 1], lo, hi);
      var q := Adds(evs[..|evs| - 1]);
      if evs[|evs| - 1].Add? { CountedSnoc(q, evs[|evs| - 1], lo, hi); } else { assert q + [] == q; }
    }
  }

  lemma {:induction false} EagerAdds(c: Cfg, t0: int, evs: seq<Event>, k: nat)
    requires c.window > 0
    ensures Eager(c, t0, evs, k) == Eager(c, t0, Adds(evs), k)
  {
    if k > 0 {
      EagerAdds(c, t0, evs, k - 1);
      CountedAdds(evs, Start(c, t0, k - 1), Start(c, t0, k));
    }
  }

  lemma SameWindow(c: Cfg, t0: int, j: nat, k: nat, now: int)
    requires Start(c, t0, j) <= now < Start(c, t0, j) + c.window && Start(c, t0, k) <= now < Start(c, t0, k) + c.window
    ensures j == k
  {
    var lo: nat, hi: nat := if j < k then j else k, if j < k then k else j;
    if lo < hi { StartStep(c, t0, lo, hi); }
  }

  lemma StartStep(c: Cfg, t0: int, j: nat, k: nat)
    requires j < k
    ensures Start(c, t0, j) + c.window <= Start(c, t0, k)
  {
    StartLeq(c, t0, j + 1, k);
  }

  function Shown(c: Cfg, t0: int, adds: seq<Event>, k: nat): State
    requires c.window > 0
  {
    State(Eager(c, t0, adds, k), Counted(adds, Start(c, t0, k), Start(c, t0, k) + c.window), Start(c, t0, k))
  }

  /** A look at `now` shows what the additions alone determine. */
  lemma LookShows(c: Cfg, t0: int, evs: seq<Event>, now: int) returns (k: nat)
    requires c.window > 0 && Total(evs) <= U64_MAX && Ordered(t0, evs + [Look(now)])
    ensures Start(c, t0, k) <= now < Start(c, t0, k) + c.window
    ensures Run(c, t0, evs + [Look(now)]) == Shown(c, t0, Adds(evs), k)
  {
    var x := evs + [Look(now)];
    assert x[..|evs|] == evs && x[|evs|] == Look(now);
    k := LazyIsEager(c, t0, x);
    assert Adds(x) == Adds(evs) + [] == Adds(evs);
    EagerAdds(c, t0, x, k);
    CountedAdds(x, Start(c, t0, k), Start(c, t0, k) + c.window);
  }

  /** Looking more or less often in between changes nothing: two runs with the same additions
      show the same when looked at at the same time. */
  lemma LooksDoNotMatter(c: Cfg, t0: int, a: seq<Event>, b: seq<Event>, now: int)
    requires c.window > 0 && Adds(a) == Adds(b) && Total(a) <= U64_MAX && Total(b) <= U64_MAX
    requires Ordered(t0, a + [Look(now)]) && Ordered(t0, b + [Look(now)])
    ensures Run(c, t0, a + [Look(now)]) == Run(c, t0, b + [Look(now)])
  {
    var j := LookShows(c, t0, a, now);
    var k := LookShows(c, t0, b, now);
    SameWindow(c, t0, j, k, now);
  }

  function SumWindows(c: Cfg, t0: int, evs: seq<Event>, k: nat): nat {
    if k == 0 then 0 else SumWindows(c, t0, evs, k - 1) + Counted(evs, Start(c, t0, k - 1), Start(c, t0, k))
  }

  lemma {:induction false} CountedSplits(evs: seq<Event>, lo: int, mid: int, hi: int)
    requires lo <= mid <= hi
    ensures Counted(evs, lo, hi) == Counted(evs, lo, mid) + Counted(evs, mid, hi)
  {
    if evs != [] { CountedSplits(evs[..|evs| - 1], lo, mid, hi); }
  }

  lemma {:induction false} SumIsCounted(c: Cfg, t0: int, evs: seq<Event>, k: nat)
    ensures SumWindows(c, t0, evs, k) == Counted(evs, t0, Start(c, t0, k))
  {
    if k == 0 {
      CountedEmpty(evs, t0);
    } else {
      SumIsCounted(c, t0, evs, k - 1);
      StartLeq(c, t0, 0, k - 1);
      CountedSplits(evs, t0, Start(c, t0, k - 1), Start(c, t0, k));
    }
  }

  lemma {:induction false} CountedEmpty(evs: seq<Event>, t: int)
    ensures Counted(evs, t, t) == 0
  {
    if evs != [] { CountedEmpty(evs[..|evs| - 1], t); }
  }

  lemma {:induction false} CountedAll(evs: seq<Event>, lo: int, hi: int)
    requires forall i :: 0 <= i < |evs| ==> lo <= evs[i].now < hi
    ensures Counted(evs, lo, hi) == Total(evs)
  {
    if evs != [] { CountedAll(evs[..|evs| - 1], lo, hi); }
  }

  /** Every recorded key is in exactly one window: those sampled and the one being counted. */
  lemma EveryKeyOnce(c: Cfg, t0: int, evs: seq<Event>) returns (k: nat)
    requires c.window > 0 && Ordered(t0, evs) && Total(evs) <= U64_MAX
    ensures Matches(c, t0, evs, Run(c, t0, evs), k)
    ensures SumWindows(c, t0, evs, k) + Run(c, t0, evs).count == Total(evs)
  {
    k := LazyIsEager(c, t0, evs);
    var lo := Start(c, t0, k);
    SumIsCounted(c, t0, evs, k);
    StartLeq(c, t0, 0, k);
    CountedSplits(evs, t0, lo, lo + c.window);
    CountedAll(evs, t0, lo + c.window);
  }

  function Pow(x: real, k: nat): real { if k == 0 then 1.0 else Pow(x, k - 1) * x }

  /** `k` idle windows multiply the average by `(1 - alpha)^k`. */
  lemma {:induction false} IdleDecay(c: Cfg, s: State, k: nat, now: int)
    requires c.window > 0 && s.count == 0 && Start(c, s.start, k) <= now < Start(c, s.start, k) + c.window
    ensures Advance(c, s, now) == State(s.ewma * Pow(1.0 - c.alpha, k), 0, Start(c, s.start, k))
    decreases k
  {
    if k > 0 {
      StartLeq(c, s.start, 1, k);
      StartShift(c, s.start, k);
      assert Sample(c, 0) == 0.0;
      IdleDecay(c, Tick(c, s), k - 1, now);
      PowShift(s.ewma, 1.0 - c.alpha, k);
    } else {
      assert s.ewma * 1.0 == s.ewma;
    }
  }

  lemma {:induction false} StartShift(c: Cfg, t: int, k: nat)
    requires k > 0
    ensures Start(c, t, k) == Start(c, t + c.window, k - 1)
  {
    if k > 1 { StartShift(c, t, k - 1); }
  }

  lemma PowShift(e: real, x: real, k: nat)
    requires k > 0
    ensures e * x * Pow(x, k - 1) == e * Pow(x, k)
  {
    Reassociate(e, x, Pow(x, k - 1));
  }

  lemma Reassociate(a: real, b: real, c: real)
    ensures a * b * c == a * (c * b)
  {
  }

  lemma BlendBetween(alpha: real, e: real, x: real, m: real)
    requires 0.0 <= alpha <= 1.0 && 0.0 <= e <= m && 0.0 <= x <= m
    ensures 0.0 <= e * (1.0 - alpha) + x * alpha <= m
  {
    assert (m - e) * (1.0 - alpha) >= 0.0 && (m - x) * alpha >= 0.0;
    assert e * (1.0 - alpha) >= 0.0 && x * alpha >= 0.0;
    assert m - (e * (1.0 - alpha) + x * alpha) == (m - e) * (1.0 - alpha) + (m - x) * alpha;
  }

  /** With a weight between 0 and 1 the average stays between 0 and the largest sample. */
  lemma {:induction false} AverageBetween(c: Cfg, t0: int, evs: seq<Event>, k: nat, m: real)
    requires c.window > 0 && 0.0 <= c.alpha <= 1.0 && 0.0 <= m
    requires forall j :: 0 <= j < k ==> Sample(c, Counted(evs, Start(c, t0, j), Start(c, t0, j + 1))) <= m
    ensures 0.0 <= Eager(c, t0, evs, k) <= m
  {
    if k > 0 {
      AverageBetween(c, t0, evs, k - 1, m);
      var n := Counted(evs, Start(c, t0, k - 1), Start(c, t0, k));
      assert Start(c, t0, (k - 1) + 1) == Start(c, t0, k);
      assert Sample(c, n) >= 0.0;
      BlendBetween(c.alpha, Eager(c, t0, evs, k - 1), Sample(c, n), m);
    }
  }

  // ---- the value ----

  /** The counts of the first `k` windows. */
  function Counts(c: Cfg, t0: int, evs: seq<Event>, k: nat): (ns: seq<nat>)
    ensures |ns| == k
  {
    if k == 0 then [] else Counts(c, t0, evs, k - 1) + [Counted(evs, Start(c, t0, k - 1), Start(c, t0, k))]
  }

  /** A window that counted `n`, in keys per second, weighted by `alpha` and by `1 - alpha` once
      for every later window. */
  function Term(c: Cfg, n: nat, later: nat): real
    requires c.window > 0
  {
    c.alpha * Pow(1.0 - c.alpha, later) * (n as real * 1000.0 / c.window as real)
  }

  /** The sum over the first `j` of the counts. */
  function Weighted(c: Cfg, ns: seq<nat>, j: nat): real
    requires c.window > 0 && j <= |ns|
  {
    if j == 0 then 0.0 else Weighted(c, ns, j - 1) + Term(c, ns[j - 1], |ns| - j)
  }

  lemma Swap(a: real, p: real, q: real, r: real)
    ensures a * (p * q) * r == a * p * r * q
  {
  }

  lemma TermMore(c: Cfg, n: nat, later: nat)
    requires c.window > 0
    ensures Term(c, n, later + 1) == Term(c, n, later) * (1.0 - c.alpha)
  {
    Swap(c.alpha, Pow(1.0 - c.alpha, later), 1.0 - c.alpha, n as real * 1000.0 / c.window as real);
  }

  lemma Commute(a: real, r: real)
    ensures a * 1.0 * r == r * a
  {
  }

  lemma TermNow(c: Cfg, n: nat)
    requires c.window > 0
    ensures Term(c, n, 0) == Sample(c, n) * c.alpha
  {
    Commute(c.alpha, n as real * 1000.0 / c.window as real);
  }

  lemma Spread(x: real, y: real, q: real)
    ensures (x + y) * q == x * q + y * q
  {
  }

  /** One more window weighs every earlier one once more. */
  lemma {:induction false} WeightedMore(c: Cfg, ns: seq<nat>, n: nat, j: nat)
    requires c.window > 0 && j <= |ns|
    ensures Weighted(c, ns + [n], j) == Weighted(c, ns, j) * (1.0 - c.alpha)
  {
    if j > 0 {
      WeightedMore(c, ns, n, j - 1);
      TermMore(c, ns[j - 1], |ns| - j);
      Spread(Weighted(c, ns, j - 1), Term(c, ns[j - 1], |ns| - j), 1.0 - c.alpha);
    }
  }

  lemma {:induction false} WeightedBlend(c: Cfg, ns: seq<nat>, n: nat)
    requires c.window > 0
    ensures Weighted(c, ns + [n], |ns| + 1) == Blend(c, Weighted(c, ns, |ns|), n)
  {
    WeightedMore(c, ns, n, |ns|);
    TermNow(c, n);
  }

  lemma {:induction false} EagerIsWeighted(c: Cfg, t0: int, evs: seq<Event>, k: nat)
    requires c.window > 0
    ensures Eager(c, t0, evs, k) == Weighted(c, Counts(c, t0, evs, k), k)
  {
    if k > 0 {
      EagerIsWeighted(c, t0, evs, k - 1);
      WeightedBlend(c, Counts(c, t0, evs, k - 1), Counted(evs, Start(c, t0, k - 1), Start(c, t0, k)));
    }
  }

  /**
   What is shown at any time, for any additions and however often it was looked at: the weighted
   sum of the rates of the windows that are over.
   */
  lemma RateIsWeighted(c: Cfg, t0: int, evs: seq<Event>, now: int) returns (k: nat)
    requires c.window > 0 && Total(evs) <= U64_MAX && Ordered(t0, evs + [Look(now)])
    ensures Start(c, t0, k) <= now < Start(c, t0, k) + c.window
    ensures Run(c, t0, evs + [Look(now)]).ewma == Weighted(c, Counts(c, t0, evs, k), k)
  {
    k := LookShows(c, t0, evs, now);
    EagerAdds(c, t0, evs, k);
    EagerIsWeighted(c, t0, evs, k);
  }

  lemma Approach(x: real, p: real, a: real)
    ensures x * (1.0 - p) * (1.0 - a) + x * a == x * (1.0 - p * (1.0 - a))
  {
  }

  /** A steady load of `n` keys a window: the average comes from 0 to the rate, the rest shrinking
      by `1 - alpha` each window. */
  lemma {:induction false} SteadyLoad(c: Cfg, t0: int, evs: seq<Event>, k: nat, n: nat)
    requires c.window > 0 && forall j :: 0 <= j < k ==> Counted(evs, Start(c, t0, j), Start(c, t0, j + 1)) == n
    ensures Eager(c, t0, evs, k) == (n as real * 1000.0 / c.window as real) * (1.0 - Pow(1.0 - c.alpha, k))
  {
    var rate := n as real * 1000.0 / c.window as real;
    if k == 0 {
      assert rate * (1.0 - 1.0) == 0.0;
    } else {
      SteadyLoad(c, t0, evs, k - 1, n);
      assert Counted(evs, Start(c, t0, k - 1), Start(c, t0, (k - 1) + 1)) == n;
      Approach(rate, Pow(1.0 - c.alpha, k - 1), c.alpha);
    }
  }
}
