/**
 The token bucket of one SAE (dkms/src/token_bucket.rs, `Bucket`), with exact arithmetic in
 place of floating point. Times are nanoseconds.
 */
module TokenBucket {
  import opened Wrappers

  const SECOND: nat := 1_000_000_000

  datatype Cfg = Cfg(capacity: nat, rate: nat)

  datatype State = State(tokens: nat, last: nat)

  function Min(a: nat, b: nat): nat { if a < b then a else b }

  function Elapsed(s: State, now: nat): nat { if s.last <= now then now - s.last else 0 }

  /** Whole tokens accrued since the last credit. */
  function Accrued(c: Cfg, s: State, now: nat): nat { Elapsed(s, now) * c.rate / SECOND }

  /** `refill_inplace`: the clock of the bucket moves only when at least one token is credited. */
  function Refilled(c: Cfg, s: State, now: nat): State {
    var n := Accrued(c, s, now);
    if n > 0 then State(Min(s.tokens + n, c.capacity), now) else s
  }

  datatype Op = Consume(n: nat, now: nat) | Refund(n: nat) | Look(now: nat)

  function After(c: Cfg, s: State, op: Op): State {
    match op
    case Consume(n, now) => var r := Refilled(c, s, now); if r.tokens >= n then r.(tokens := r.tokens - n) else r
    case Refund(n) => s.(tokens := Min(s.tokens + n, c.capacity))
    case Look(now) => Refilled(c, s, now)
  }

  class Bucket {
    const cfg: Cfg
    var s: State

    constructor (capacity: nat, rate: nat, now: nat)
      ensures cfg == Cfg(capacity, rate) && s == State(capacity, now)
    {
      cfg, s := Cfg(capacity, rate), State(capacity, now);
    }

    method RefillInPlace(now: nat)
      modifies this`s
      ensures s == Refilled(cfg, old(s), now)
    {
      var elapsed := if s.last <= now then now - s.last else 0;
      var refilled := elapsed * cfg.rate / SECOND;
      if refilled > 0 { s := State(Min(s.tokens + refilled, cfg.capacity), now); }
    }

    /** Takes `n` tokens, or says how many there are. */
    method TryConsume(n: nat, now: nat) returns (r: Result<(), nat>)
      modifies this`s
      ensures s == After(cfg, old(s), Consume(n, now))
      ensures r.Ok? <==> Refilled(cfg, old(s), now).tokens >= n
      ensures r.Ok? ==> s.tokens + n == Refilled(cfg, old(s), now).tokens && s.last == Refilled(cfg, old(s), now).last
      ensures r.Err? ==> s == Refilled(cfg, old(s), now) && r.error == s.tokens < n
    {
      RefillInPlace(now);
      if s.tokens >= n {
        s := s.(tokens := s.tokens - n);
        return Ok(());
      }
      return Err(s.tokens);
    }

    method GiveBack(n: nat)
      modifies this`s
      ensures s == After(cfg, old(s), Refund(n))
    {
      s := s.(tokens := Min(s.tokens + n, cfg.capacity));
    }

    method SnapshotNow(now: nat) returns (tokens: nat)
      modifies this`s
      ensures s == After(cfg, old(s), Look(now)) && tokens == s.tokens
    {
      RefillInPlace(now);
      tokens := s.tokens;
    }
  }

  // ---- accounts ----

  /** What a run took, gave back and was credited, and whether the bucket ever overflowed. */
  datatype Book = Book(s: State, consumed: nat, refunded: nat, credited: nat, credits: nat, overflowed: bool)

  function Credit(c: Cfg, b: Book, now: nat): Book {
    var n := Accrued(c, b.s, now);
    if n == 0 then b else
    Book(Refilled(c, b.s, now), b.consumed, b.refunded, b.credited + n, b.credits + 1, b.overflowed || b.s.tokens + n > c.capacity)
  }

  function Booked(c: Cfg, b: Book, op: Op): Book {
    match op
    case Consume(n, now) =>
      var d := Credit(c, b, now);
      if d.s.tokens >= n then d.(s := d.s.(tokens := d.s.tokens - n), consumed := d.consumed + n) else d
    case Refund(n) => b.(s := After(c, b.s, op), refunded := b.refunded + n)
    case Look(now) => Credit(c, b, now)
  }

  /** The bucket itself, operation after operation. */
  function Ran(c: Cfg, t0: nat, ops: seq<Op>): State {
    if ops == [] then State(c.capacity, t0) else After(c, Ran(c, t0, ops[..|ops| - 1]), ops[|ops| - 1])
  }

  /** The accounts are those of the bucket. */
  lemma {:induction false} BooksTheBucket(c: Cfg, t0: nat, ops: seq<Op>)
    ensures Run(c, t0, ops).s == Ran(c, t0, ops)
  {
    if ops != [] { BooksTheBucket(c, t0, ops[..|ops| - 1]); }
  }

  function Run(c: Cfg, t0: nat, ops: seq<Op>): Book {
    if ops == [] then Book(State(c.capacity, t0), 0, 0, 0, 0, false)
    else Booked(c, Run(c, t0, ops[..|ops| - 1]), ops[|ops| - 1])
  }

  ghost predicate Balanced(c: Cfg, t0: nat, b: Book) {
    && b.s.tokens <= c.capacity && t0 <= b.s.last
    && SECOND * (b.s.tokens + b.consumed) <= SECOND * (c.capacity + b.refunded) + c.rate * (b.s.last - t0)
    && SECOND * b.credited <= c.rate * (b.s.last - t0) <= SECOND * (b.credited + b.credits)
  }

  lemma Spread(r: nat, a: nat, b: nat)
    ensures r * (a + b) == r * a + r * b
  {
  }

  lemma CreditBalanced(c: Cfg, t0: nat, b: Book, now: nat)
    requires Balanced(c, t0, b)
    ensures Balanced(c, t0, Credit(c, b, now))
  {
    var e, n := Elapsed(b.s, now), Accrued(c, b.s, now);
    if n > 0 {
      assert SECOND * n <= e * c.rate < SECOND * n + SECOND;
      Spread(c.rate, b.s.last - t0, e);
      assert now - t0 == b.s.last - t0 + e;
      assert c.rate * e == e * c.rate;
    }
  }

  lemma {:induction false} RunBalanced(c: Cfg, t0: nat, ops: seq<Op>)
    ensures Balanced(c, t0, Run(c, t0, ops))
  {
    if ops == [] {
      assert c.rate * 0 == 0;
    } else {
      var b, op := Run(c, t0, ops[..|ops| - 1]), ops[|ops| - 1];
      RunBalanced(c, t0, ops[..|ops| - 1]);
      match op
      case Consume(n, now) => CreditBalanced(c, t0, b, now);
      case Refund(n) =>
      case Look(now) => CreditBalanced(c, t0, b, now);
    }
  }

  /** Over every run, whatever the order of operations and the clock readings: never more than
      the capacity at once, and never more in all than the capacity, the rate over the time
      credited and what was given back. */
  lemma NeverTooMuch(c: Cfg, t0: nat, ops: seq<Op>)
    ensures var b := Run(c, t0, ops);
            && b.s == Ran(c, t0, ops) && b.s.tokens <= c.capacity && t0 <= b.s.last
            && SECOND * b.consumed <= SECOND * (c.capacity + b.refunded) + c.rate * (b.s.last - t0)
  {
    RunBalanced(c, t0, ops);
    BooksTheBucket(c, t0, ops);
  }

  lemma Fraction(rate: nat, a: nat, e: nat, x: nat)
    requires rate * a <= x && e * rate / SECOND == 0
    ensures rate * (a + e) < x + SECOND
  {
    Spread(rate, a, e);
    assert rate * e == e * rate;
  }

  lemma CreditPolls(c: Cfg, t0: nat, b: Book, now: nat)
    requires Balanced(c, t0, b) && now >= b.s.last
    ensures var d := Credit(c, b, now); c.rate * (now - t0) < SECOND * (d.credited + d.credits + 1)
  {
    if Accrued(c, b.s, now) == 0 {
      Fraction(c.rate, b.s.last - t0, now - b.s.last, SECOND * (b.credited + b.credits));
      assert b.s.last - t0 + (now - b.s.last) == now - t0;
    } else {
      CreditBalanced(c, t0, b, now);
    }
  }

  /** Polling loses no accrual beyond the fraction dropped at each credit: after looking at
      `now`, what was credited falls short of the rate over the whole time by less than one
      token per credit and one more. */
  lemma {:induction false} PollingLosesLittle(c: Cfg, t0: nat, ops: seq<Op>, now: nat)
    requires now >= Run(c, t0, ops).s.last
    ensures var b := Run(c, t0, ops + [Look(now)]);
            c.rate * (now - t0) < SECOND * (b.credited + b.credits + 1)
  {
    assert (ops + [Look(now)])[..|ops|] == ops;
    RunBalanced(c, t0, ops);
    CreditPolls(c, t0, Run(c, t0, ops), now);
  }

  /** Tokens are conserved exactly while nothing overflows. */
  lemma {:induction false} Conserved(c: Cfg, t0: nat, ops: seq<Op>)
    requires !Run(c, t0, ops).overflowed && FitsRefunds(c, t0, ops)
    ensures var b := Run(c, t0, ops);
            b.s == Ran(c, t0, ops) && b.s.tokens + b.consumed == c.capacity + b.credited + b.refunded
  {
    BooksTheBucket(c, t0, ops);
    if ops != [] {
      var init := ops[..|ops| - 1];
      forall i | 0 <= i < |init| && init[i].Refund? ensures Run(c, t0, init[..i]).s.tokens + init[i].n <= c.capacity {
        assert init[..i] == ops[..i] && init[i] == ops[i];
      }
      Conserved(c, t0, init);
      assert ops[..|ops| - 1] == init;
    }
  }

  /** No refund is cut off at the capacity. */
  ghost predicate FitsRefunds(c: Cfg, t0: nat, ops: seq<Op>) {
    forall i :: 0 <= i < |ops| && ops[i].Refund? ==> Run(c, t0, ops[..i]).s.tokens + ops[i].n <= c.capacity
  }
}
