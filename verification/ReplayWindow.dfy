/**
 The anti-replay window as it is implemented: the accepted counters of a session are the
 bits of a vector of 64-bit words, shifted in place as the highest counter grows
 (common/src/crypto/frame_mac.rs). Proved to do exactly what `ReplaySpec` says.
 */
module BitWords {
  /** A 64-bit word as its bits, least significant first. */
  type Word = w: seq<bool> | |w| == 64 witness Zeros(64)

  function Zeros(n: nat): (r: seq<bool>)
    ensures |r| == n && forall i :: 0 <= i < n ==> !r[i]
  {
    if n == 0 then [] else [false] + Zeros(n - 1)
  }

  const ZERO: Word := Zeros(64)

  function Shl(w: Word, n: nat): (r: Word)
    requires n <= 64
  {
    Zeros(n) + w[..64 - n]
  }

  function Shr(w: Word, n: nat): (r: Word)
    requires n <= 64
  {
    w[n..] + Zeros(n)
  }

  function Or(a: Word, b: Word): (r: Word) {
    seq(64, (i: int) => 0 <= i < 64 && (a[i] || b[i]))
  }

  /** Bit `k` of the vector; bits outside it are clear. */
  predicate Flag(ws: seq<Word>, k: int) {
    0 <= k < 64 * |ws| && ws[k / 64][k % 64]
  }

  /** `bits[i / 64] |= 1 << (i % 64)` */
  method SetFlag(bits: array<Word>, k: nat)
    requires k < 64 * bits.Length
    modifies bits
    ensures forall j :: 0 <= j < 64 * bits.Length ==> Flag(bits[..], j) == (j == k || Flag(old(bits[..]), j))
  {
    bits[k / 64] := Or(bits[k / 64], Shl(ZERO[0 := true], k % 64));
  }

  /** `bits.iter_mut().for_each(|w| *w = 0)` */
  method ClearFlags(bits: array<Word>)
    modifies bits
    ensures forall j :: !Flag(bits[..], j)
  {
    for i := 0 to bits.Length
      invariant forall m :: 0 <= m < i ==> bits[m] == ZERO
    {
      bits[i] := ZERO;
    }
  }

  /** The words moved up by whole words. */
  function WordAt(ws: seq<Word>, i: int): (w: Word) {
    if 0 <= i < |ws| then ws[i] else ZERO
  }

  lemma WordBit(ws: seq<Word>, i: int, j: nat)
    requires j < 64
    ensures WordAt(ws, i)[j] == Flag(ws, 64 * i + j)
  {
    assert 0 <= i < |ws| ==> (64 * i + j) / 64 == i && (64 * i + j) % 64 == j;
  }

  /** One output word of the shift takes its bits from two neighbouring input words. */
  lemma ShiftedBit(ws: seq<Word>, words: nat, rem: nat, i: nat, j: nat)
    requires rem < 64 && j < 64
    ensures Or(Shl(WordAt(ws, i - words), rem), Shr(WordAt(ws, i - words - 1), 64 - rem))[j]
         == Flag(ws, 64 * i + j - (64 * words + rem))
  {
    var a, b := WordAt(ws, i - words), WordAt(ws, i - words - 1);
    if j >= rem {
      WordBit(ws, i - words, j - rem);
      assert !Shr(b, 64 - rem)[j];
      assert 64 * (i - words) + (j - rem) == 64 * i + j - (64 * words + rem);
    } else {
      WordBit(ws, i - words - 1, 64 - rem + j);
      assert !Shl(a, rem)[j] && Shr(b, 64 - rem)[j] == b[64 - rem + j];
      assert 64 * (i - words - 1) + (64 - rem + j) == 64 * i + j - (64 * words + rem);
    }
  }

  /** The first loop of `shift_bits`: move up by whole words. */
  method ShiftWords(bits: array<Word>, words: nat)
    modifies bits
    ensures forall m :: 0 <= m < bits.Length ==> bits[m] == WordAt(old(bits[..]), m - words)
  {
    var n := bits.Length;
    ghost var was := bits[..];
    for i := n downto 0
      invariant forall m :: 0 <= m < i ==> bits[m] == was[m]
      invariant forall m :: i <= m < n ==> bits[m] == WordAt(was, m - words)
    {
      bits[i] := if i >= words then bits[i - words] else ZERO;
    }
  }

  /** The second loop of `shift_bits`: move up by less than a word, carrying. */
  method ShiftWithin(bits: array<Word>, rem: nat)
    requires 0 < rem < 64
    modifies bits
    ensures forall m :: 0 <= m < bits.Length ==>
              bits[m] == Or(Shl(WordAt(old(bits[..]), m), rem), Shr(WordAt(old(bits[..]), m - 1), 64 - rem))
  {
    var carry, n := ZERO, bits.Length;
    ghost var was := bits[..];
    assert Shr(ZERO, 64 - rem) == ZERO;
    for i := 0 to n
      invariant carry == Shr(WordAt(was, i - 1), 64 - rem)
      invariant forall m :: i <= m < n ==> bits[m] == was[m]
      invariant forall m :: 0 <= m < i ==> bits[m] == Or(Shl(WordAt(was, m), rem), Shr(WordAt(was, m - 1), 64 - rem))
    {
      var next := Shr(bits[i], 64 - rem);
      bits[i] := Or(Shl(bits[i], rem), carry);
      carry := next;
    }
  }

  lemma ShiftedFlag(was: seq<Word>, out: seq<Word>, words: nat, rem: nat, k: nat)
    requires |out| == |was| && rem < 64 && k < 64 * |was|
    requires rem == 0 ==> out[k / 64] == WordAt(was, k / 64 - words)
    requires rem > 0 ==> out[k / 64] == Or(Shl(WordAt(was, k / 64 - words), rem), Shr(WordAt(was, k / 64 - words - 1), 64 - rem))
    ensures Flag(out, k) == Flag(was, k - (64 * words + rem))
  {
    var i, j := k / 64, k % 64;
    assert k == 64 * i + j;
    if rem > 0 {
      ShiftedBit(was, words, rem, i, j);
    } else {
      WordBit(was, i - words, j);
    }
  }

  /** Both loops together move every flag up. */
  lemma ShiftedFlags(was: seq<Word>, mid: seq<Word>, out: seq<Word>, words: nat, rem: nat, amount: nat)
    requires |was| == |mid| == |out| && rem < 64 && amount == 64 * words + rem
    requires forall m :: 0 <= m < |mid| ==> mid[m] == WordAt(was, m - words)
    requires rem == 0 ==> out == mid
    requires rem > 0 ==> forall m :: 0 <= m < |out| ==> out[m] == Or(Shl(WordAt(mid, m), rem), Shr(WordAt(mid, m - 1), 64 - rem))
    ensures forall k :: 0 <= k < 64 * |out| ==> Flag(out, k) == Flag(was, k - amount)
  {
    forall k | 0 <= k < 64 * |out| ensures Flag(out, k) == Flag(was, k - amount) {
      var i := k / 64;
      assert WordAt(mid, i) == mid[i] == WordAt(was, i - words);
      assert WordAt(mid, i - 1) == WordAt(was, i - 1 - words);
      ShiftedFlag(was, out, words, rem, k);
    }
  }

  /** `shift_bits`: the whole vector moves up by `amount` bits. */
  method ShiftBits(bits: array<Word>, amount: nat)
    modifies bits
    ensures forall k :: 0 <= k < 64 * bits.Length ==> Flag(bits[..], k) == Flag(old(bits[..]), k - amount)
  {
    var words, rem := amount / 64, amount % 64;
    ghost var was := bits[..];
    if words > 0 { ShiftWords(bits, words); }
    ghost var mid := bits[..];
    if rem > 0 { ShiftWithin(bits, rem); }
    assert forall m :: 0 <= m < |mid| ==> mid[m] == WordAt(was, m - words);
    ShiftedFlags(was, mid, bits[..], words, rem, amount);
  }
}

module ReplayWindows {
  import opened Wrappers
  import opened BitWords
  import opened ReplaySpec

  /** The accepted counters a bit vector stands for: bit `i` is counter `highest - i`. */
  ghost function SeenOf(bits: seq<Word>, highest: nat, width: nat): set<nat> {
    set c: nat | 0 < c <= highest && Counted(bits, highest, width, c)
  }

  ghost predicate Counted(bits: seq<Word>, highest: nat, width: nat, c: nat) {
    0 < c <= highest && highest - c < width && Flag(bits, highest - c)
  }

  /** The counters left in view once `counter` is the highest, and itself. */
  ghost function Raised(seen: set<nat>, width: nat, counter: nat): set<nat> {
    (set c | c in seen && c + width > counter) + {counter}
  }

  /** The bits moved up by `rise`, those beyond the width gone, and the lowest one set. */
  ghost predicate Risen(was: seq<Word>, now: seq<Word>, width: nat, rise: nat) {
    |was| == |now| && forall k :: 0 <= k < 64 * |now| ==> Flag(now, k) == (k == 0 || (rise < width && Flag(was, k - rise)))
  }

  lemma SeenAfterRise(was: seq<Word>, now: seq<Word>, highest: nat, width: nat, counter: nat)
    requires 0 < width <= 64 * |now| && counter > highest && Risen(was, now, width, counter - highest)
    ensures SeenOf(now, counter, width) == Raised(SeenOf(was, highest, width), width, counter)
  {
    var kept := set c | c in SeenOf(was, highest, width) && c + width > counter;
    forall c: nat | 0 < c <= counter
      ensures c in SeenOf(now, counter, width) <==> c in kept + {counter}
    {
      if counter - c < width {
        assert Flag(now, counter - c) == (c == counter || (counter - highest < width && Flag(was, highest - c)));
        assert c <= highest ==> Counted(was, highest, width, c) == (highest - c < width && Flag(was, highest - c));
      }
      assert Counted(now, counter, width, c) == (counter - c < width && Flag(now, counter - c));
    }
  }

  lemma SeenAfterSet(was: seq<Word>, now: seq<Word>, highest: nat, width: nat, counter: nat)
    requires 0 < width <= 64 * |now| && |was| == |now| && 0 < counter <= highest && highest - counter < width
    requires forall k :: 0 <= k < 64 * |now| ==> Flag(now, k) == (k == highest - counter || Flag(was, k))
    ensures SeenOf(now, highest, width) == SeenOf(was, highest, width) + {counter}
  {
    forall c: nat | 0 < c <= highest
      ensures c in SeenOf(now, highest, width) <==> c in SeenOf(was, highest, width) + {counter}
    {
      if highest - c < width { assert Flag(now, highest - c) == (c == counter || Flag(was, highest - c)); }
      assert Counted(now, highest, width, c) == (highest - c < width && Flag(now, highest - c));
      assert Counted(was, highest, width, c) == (highest - c < width && Flag(was, highest - c));
    }
  }

  /** A session kept alive after another one was adopted. */
  datatype Saved = Saved(id: nat, highest: nat, bits: array<Word>)

  class ReplayWindow {
    const width: nat
    var session: Option<nat>
    var highest: nat
    var bits: array<Word>
    var prev: Option<Saved>
    var retired: seq<nat>

    ghost function Repr(): set<object>
      reads this
    {
      {this, bits} + if prev.Some? then {prev.value.bits} else {}
    }

    ghost predicate Valid()
      reads this
    {
      && width >= 64
      && width <= 64 * bits.Length
      && (prev.Some? ==> prev.value.bits != bits && width <= 64 * prev.value.bits.Length)
    }

    ghost function View(): Window
      reads Repr()
    {
      Window(width,
             if session.None? then None else Some(Session(session.value, highest, SeenOf(bits[..], highest, width))),
             if prev.None? then None
             else Some(Session(prev.value.id, prev.value.highest, SeenOf(prev.value.bits[..], prev.value.highest, width))),
             retired)
    }

    constructor (requested: nat)
      ensures Valid() && fresh(Repr())
      ensures View() == Fresh(if requested < 64 then 64 else requested)
    {
      var w := if requested < 64 then 64 else requested;
      width := w;
      session, highest, prev, retired := None, 0, None, [];
      bits := new Word[(w + 63) / 64](_ => ZERO);
    }

    /** `reset_to` for a session other than the current one. */
    method ResetTo(id: nat)
      requires Valid() && session != Some(id)
      modifies this, bits
      ensures Valid() && fresh(Repr() - old(Repr()))
      ensures View() == Adopt(old(View()), id)
    {
      if session.Some? {
        if prev.Some? {
          retired := retired + [prev.value.id];
          if |retired| > RETIRED_KEPT { retired := retired[1..]; }
        }
        var copy := new Word[bits.Length](i requires 0 <= i < bits.Length reads this, bits => bits[i]);
        assert copy[..] == old(bits[..]);
        prev := Some(Saved(session.value, highest, copy));
      }
      session := Some(id);
      highest := 0;
      ClearFlags(bits);
      assert SeenOf(bits[..], 0, width) == {};
      assert old(session).Some? ==> prev.value.bits[..] == old(bits[..]);
    }

    /** The tail shared by `check_and_set` and `check_and_set_prev`: accept a counter above
        the highest one by moving the bits, or an unset one inside the width. */
    static method MarkBits(bits: array<Word>, highest: nat, width: nat, counter: nat)
      returns (top: nat, err: Option<ReplayError>)
      requires 0 < width <= 64 * bits.Length && counter > 0
      modifies bits
      ensures match Mark(Session(0, highest, SeenOf(old(bits[..]), highest, width)), width, counter)
              case Ok(s) => err.None? && top == s.highest && SeenOf(bits[..], top, width) == s.seen
              case Err(e) => err == Some(e) && top == highest && bits[..] == old(bits[..])
    {
      if counter > highest {
        MarkAbove(bits, highest, width, counter);
        return counter, None;
      }
      top := highest;
      err := MarkWithin(bits, highest, width, counter);
    }

    /** A counter above the highest one. */
    static method MarkAbove(bits: array<Word>, highest: nat, width: nat, counter: nat)
      requires 0 < width <= 64 * bits.Length && counter > highest
      modifies bits
      ensures SeenOf(bits[..], counter, width) == Raised(SeenOf(old(bits[..]), highest, width), width, counter)
    {
      ghost var was := bits[..];
      RaiseBits(bits, counter - highest, width);
      SeenAfterRise(was, bits[..], highest, width, counter);
    }

    static method RaiseBits(bits: array<Word>, rise: nat, width: nat)
      requires 0 < width <= 64 * bits.Length && rise > 0
      modifies bits
      ensures Risen(old(bits[..]), bits[..], width, rise)
    {
      if rise >= width {
        ClearFlags(bits);
      } else {
        ShiftBits(bits, rise);
      }
      SetFlag(bits, 0);
    }

    /** A counter not above the highest one. */
    static method MarkWithin(bits: array<Word>, highest: nat, width: nat, counter: nat) returns (err: Option<ReplayError>)
      requires 0 < width <= 64 * bits.Length && 0 < counter <= highest
      modifies bits
      ensures match Mark(Session(0, highest, SeenOf(old(bits[..]), highest, width)), width, counter)
              case Ok(s) => err.None? && s.highest == highest && SeenOf(bits[..], highest, width) == s.seen
              case Err(e) => err == Some(e) && bits[..] == old(bits[..])
    {
      ghost var was := bits[..];
      var back := highest - counter;
      if back >= width { return Some(TooOld); }
      assert Counted(was, highest, width, counter) == bits[back / 64][back % 64];
      if bits[back / 64][back % 64] { return Some(Replayed); }
      SetFlag(bits, back);
      SeenAfterSet(was, bits[..], highest, width, counter);
      return None;
    }

    method CheckAndSet(id: nat, counter: nat) returns (err: Option<ReplayError>)
      requires Valid()
      modifies Repr()
      ensures Valid() && fresh(Repr() - old(Repr()))
      ensures (View(), err) == ReplaySpec.CheckAndSet(old(View()), id, counter)
    {
      if counter == 0 { return Some(ZeroCounter); }
      if id in retired { return Some(RetiredSession); }
      if prev.Some? && prev.value.id == id {
        var top;
        top, err := MarkBits(prev.value.bits, prev.value.highest, width, counter);
        prev := Some(prev.value.(highest := top));
        return;
      }
      if session != Some(id) { ResetTo(id); }
      highest, err := MarkBits(bits, highest, width, counter);
    }
  }
}
