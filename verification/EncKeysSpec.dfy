/**
 Serving session keys (dkms/src/service.rs, `handle_enc_keys` and `build_ext_keys_envelope`;
 dkms/src/state/pool.rs and buffer.rs): one-time pads are popped from per-peer, per-grade
 queues, and returned to their front if the request fails before anything is sent.
 */
module EncKeysSpec {
  import opened Wrappers
  import opened Bytes

  const TRANSPORT_KEY_BYTES: nat := 32
  const MAX_KEY_PER_REQUEST: nat := 64
  const MAX_KEY_SIZE_BITS: nat := 256
  const MIN_KEY_SIZE_BITS: nat := 64
  const MAX_SAE_ID_COUNT: nat := 16

  datatype Grade = Qkd | Pqc

  datatype TKey = TKey(id: Text, bytes: seq<byte>)

  datatype SessionKey = SessionKey(id: Text, bytes: seq<byte>)

  datatype Failure = BufferEmpty | KeyTooShort | WrapTooShort | NoRoute

  // ---- one peer's queues ----

  datatype Bufs = Bufs(qkd: seq<TKey>, pqc: seq<TKey>) {
    function Enc(g: Grade): seq<TKey> { if g == Qkd then qkd else pqc }
    function With(g: Grade, q: seq<TKey>): Bufs { if g == Qkd then this.(qkd := q) else this.(pqc := q) }
  }

  type Taken = seq<(Grade, TKey)>

  /** The oldest key of the first grade in preference order that has one. */
  function PopPref(b: Bufs, prefs: seq<Grade>): Option<(Grade, TKey, Bufs)> {
    if prefs == [] then None
    else if b.Enc(prefs[0]) != [] then
      Some((prefs[0], b.Enc(prefs[0])[0], b.With(prefs[0], b.Enc(prefs[0])[1..])))
    else PopPref(b, prefs[1..])
  }

  function PushFront(b: Bufs, g: Grade, k: TKey): Bufs { b.With(g, [k] + b.Enc(g)) }

  /** Last taken, first returned. */
  function GiveBack(b: Bufs, taken: Taken): Bufs
    decreases |taken|
  {
    if taken == [] then b
    else GiveBack(PushFront(b, taken[|taken| - 1].0, taken[|taken| - 1].1), taken[..|taken| - 1])
  }

  /** The keys of one grade, in the order they were taken. */
  function OfGrade(taken: Taken, g: Grade): seq<TKey> {
    if taken == [] then []
    else OfGrade(taken[..|taken| - 1], g) + if taken[|taken| - 1].0 == g then [taken[|taken| - 1].1] else []
  }

  /** Returning everything puts each queue back together in front of what is left of it. */
  lemma {:induction false} GiveBackJoins(b: Bufs, taken: Taken, g: Grade)
    ensures GiveBack(b, taken).Enc(g) == OfGrade(taken, g) + b.Enc(g)
    decreases |taken|
  {
    if taken != [] {
      var (h, k) := taken[|taken| - 1];
      var init := taken[..|taken| - 1];
      GiveBackJoins(PushFront(b, h, k), init, g);
      if h == g { Associate(OfGrade(init, g), k, b.Enc(g)); } else { assert OfGrade(init, g) + [] == OfGrade(init, g); }
    }
  }

  lemma Associate(a: seq<TKey>, k: TKey, b: seq<TKey>)
    ensures a + ([k] + b) == a + [k] + b
  {
  }

  datatype BuildOutcome = Built(bufs: Bufs, taken: Taken) | Failed(left: Bufs, why: Failure)

  /** One pad per session key; on a failure those already taken go back, but not the pad that
      was too short, and none if it is the wrapping that fails. */
  function Build(b: Bufs, prefs: seq<Grade>, keys: seq<SessionKey>): BuildOutcome {
    if keys == [] then Built(b, []) else
    match Build(b, prefs, keys[..|keys| - 1])
    case Failed(left, why) => Failed(left, why)
    case Built(b1, taken) =>
      match PopPref(b1, prefs)
      case None => Failed(GiveBack(b1, taken), BufferEmpty)
      case Some((g, k, b2)) =>
        if |k.bytes| < TRANSPORT_KEY_BYTES then Failed(GiveBack(b2, taken), KeyTooShort)
        else if |k.bytes| < |keys[|keys| - 1].bytes| then Failed(b2, WrapTooShort)
        else Built(b2, taken + [(g, k)])
  }

  lemma {:induction false} PopPrefPops(b: Bufs, prefs: seq<Grade>)
    ensures match PopPref(b, prefs)
            case None => forall i :: 0 <= i < |prefs| ==> b.Enc(prefs[i]) == []
            case Some((g, k, b')) =>
              && PushFront(b', g, k) == b
              && exists i :: 0 <= i < |prefs| && prefs[i] == g && forall j :: 0 <= j < i ==> b.Enc(prefs[j]) == []
  {
    if prefs != [] {
      if b.Enc(prefs[0]) != [] {
        var q := b.Enc(prefs[0]);
        assert [q[0]] + q[1..] == q;
      } else {
        PopPrefPops(b, prefs[1..]);
        match PopPref(b, prefs[1..])
        case None =>
          forall i | 0 <= i < |prefs| ensures b.Enc(prefs[i]) == [] { if i > 0 { assert prefs[1..][i - 1] == prefs[i]; } }
        case Some((g, k, b')) =>
          var i :| 0 <= i < |prefs[1..]| && prefs[1..][i] == g && forall j :: 0 <= j < i ==> b.Enc(prefs[1..][j]) == [];
          forall j | 0 <= j < i + 1 ensures b.Enc(prefs[j]) == [] { if j > 0 { assert prefs[1..][j - 1] == prefs[j]; } }
          assert prefs[i + 1] == g;
      }
    }
  }

  /** `b` without the key at place `j` of grade `g`. */
  function Without(b: Bufs, g: Grade, j: nat): Bufs
    requires j < |b.Enc(g)|
  {
    b.With(g, b.Enc(g)[..j] + b.Enc(g)[j + 1..])
  }

  ghost predicate LostShort(b: Bufs, b': Bufs) {
    exists g, j :: 0 <= j < |b.Enc(g)| && |b.Enc(g)[j].bytes| < TRANSPORT_KEY_BYTES && b' == Without(b, g, j)
  }

  /** Returning all but the last taken key leaves the queues without just that key. */
  lemma GiveBackWithout(b: Bufs, taken: Taken, g: Grade, k: TKey)
    ensures var whole, j := GiveBack(PushFront(b, g, k), taken), |OfGrade(taken, g)|;
            && j < |whole.Enc(g)| && whole.Enc(g)[j] == k && GiveBack(b, taken) == Without(whole, g, j)
  {
    GiveBackJoins(b, taken, Qkd);
    GiveBackJoins(b, taken, Pqc);
    GiveBackJoins(PushFront(b, g, k), taken, Qkd);
    GiveBackJoins(PushFront(b, g, k), taken, Pqc);
    var whole, j, t, q := GiveBack(PushFront(b, g, k), taken), |OfGrade(taken, g)|, OfGrade(taken, g), b.Enc(g);
    assert whole.Enc(g) == t + ([k] + q);
    assert whole.Enc(g)[..j] == t && whole.Enc(g)[j + 1..] == q;
  }

  ghost predicate Covers(taken: Taken, keys: seq<SessionKey>) {
    |taken| == |keys| && forall i :: 0 <= i < |keys| ==>
      |taken[i].1.bytes| >= TRANSPORT_KEY_BYTES && |taken[i].1.bytes| >= |keys[i].bytes|
  }

  ghost predicate Oversize(keys: seq<SessionKey>) {
    exists i :: 0 <= i < |keys| && |keys[i].bytes| > TRANSPORT_KEY_BYTES
  }

  /** What is left of `b` after a failure. */
  ghost predicate RolledBack(b: Bufs, left: Bufs, why: Failure, keys: seq<SessionKey>) {
    match why
    case BufferEmpty => left == b
    case KeyTooShort => LostShort(b, left)
    case WrapTooShort => Oversize(keys)
    case NoRoute => false
  }

  /** What an envelope takes can be put back exactly, and a failure has put it back, less at
      most the one pad that was too short. */
  lemma {:induction false} BuildExact(b: Bufs, prefs: seq<Grade>, keys: seq<SessionKey>)
    ensures match Build(b, prefs, keys)
            case Built(b', taken) => GiveBack(b', taken) == b && Covers(taken, keys)
            case Failed(left, why) => RolledBack(b, left, why, keys)
  {
    if keys != [] {
      var init := keys[..|keys| - 1];
      BuildExact(b, prefs, init);
      match Build(b, prefs, init)
      case Failed(left, why) => if Oversize(init) { OversizeGrows(keys); }
      case Built(b1, taken) => BuildStep(b, prefs, keys, b1, taken);
    }
  }

  lemma OversizeGrows(keys: seq<SessionKey>)
    requires keys != [] && Oversize(keys[..|keys| - 1])
    ensures Oversize(keys)
  {
    var i :| 0 <= i < |keys| - 1 && |keys[..|keys| - 1][i].bytes| > TRANSPORT_KEY_BYTES;
    assert keys[i] == keys[..|keys| - 1][i];
  }

  lemma BuildStep(b: Bufs, prefs: seq<Grade>, keys: seq<SessionKey>, b1: Bufs, taken: Taken)
    requires keys != [] && Build(b, prefs, keys[..|keys| - 1]) == Built(b1, taken)
    requires GiveBack(b1, taken) == b && Covers(taken, keys[..|keys| - 1])
    ensures match Build(b, prefs, keys)
            case Built(b', taken') => GiveBack(b', taken') == b && Covers(taken', keys)
            case Failed(left, why) => RolledBack(b, left, why, keys)
  {
    PopPrefPops(b1, prefs);
    match PopPref(b1, prefs)
    case None =>
    case Some((g, k, b2)) =>
      if |k.bytes| < TRANSPORT_KEY_BYTES {
        ShortLost(b, b2, taken, g, k);
      } else if |k.bytes| < |keys[|keys| - 1].bytes| {
        assert Oversize(keys);
      } else {
        TakenMore(b, b2, taken, g, k, keys);
      }
  }

  lemma ShortLost(b: Bufs, b2: Bufs, taken: Taken, g: Grade, k: TKey)
    requires GiveBack(PushFront(b2, g, k), taken) == b && |k.bytes| < TRANSPORT_KEY_BYTES
    ensures LostShort(b, GiveBack(b2, taken))
  {
    GiveBackWithout(b2, taken, g, k);
  }

  lemma TakenMore(b: Bufs, b2: Bufs, taken: Taken, g: Grade, k: TKey, keys: seq<SessionKey>)
    requires keys != [] && GiveBack(PushFront(b2, g, k), taken) == b && Covers(taken, keys[..|keys| - 1])
    requires |k.bytes| >= TRANSPORT_KEY_BYTES && |k.bytes| >= |keys[|keys| - 1].bytes|
    ensures GiveBack(b2, taken + [(g, k)]) == b && Covers(taken + [(g, k)], keys)
  {
    GiveBackSnoc(b2, taken, g, k);
    CoversMore(taken, g, k, keys);
  }

  lemma GiveBackSnoc(b: Bufs, taken: Taken, g: Grade, k: TKey)
    ensures GiveBack(b, taken + [(g, k)]) == GiveBack(PushFront(b, g, k), taken)
  {
    assert (taken + [(g, k)])[..|taken|] == taken;
  }

  lemma CoversMore(taken: Taken, g: Grade, k: TKey, keys: seq<SessionKey>)
    requires keys != [] && Covers(taken, keys[..|keys| - 1])
    requires |k.bytes| >= TRANSPORT_KEY_BYTES && |k.bytes| >= |keys[|keys| - 1].bytes|
    ensures Covers(taken + [(g, k)], keys)
  {
    assert forall i :: 0 <= i < |taken| ==> keys[..|keys| - 1][i] == keys[i];
  }
}
