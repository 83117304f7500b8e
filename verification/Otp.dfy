/** One-time-pad wrapping of session keys (dkms/src/service.rs, `wrap_session_key`). */
module Otp {
  import opened Wrappers
  import opened Bytes

  /** Exclusive or of the low `n` bits. */
  function XorBits(a: nat, b: nat, n: nat): (r: nat)
    decreases n
  {
    if n == 0 then 0 else 2 * XorBits(a / 2, b / 2, n - 1) + (a % 2 + b % 2) % 2
  }

  function Two(n: nat): nat { if n == 0 then 1 else 2 * Two(n - 1) }

  function Bit(a: nat, i: nat): nat { if i == 0 then a % 2 else Bit(a / 2, i - 1) }

  /** Each bit is set exactly where the two differ. */
  lemma {:induction false} XorBit(a: nat, b: nat, n: nat, i: nat)
    requires i < n
    ensures Bit(XorBits(a, b, n), i) == if Bit(a, i) == Bit(b, i) then 0 else 1
    decreases n
  {
    Halves(XorBits(a / 2, b / 2, n - 1), (a % 2 + b % 2) % 2);
    if i > 0 { XorBit(a / 2, b / 2, n - 1, i - 1); }
  }

  lemma {:induction false} XorBitsBound(a: nat, b: nat, n: nat)
    ensures XorBits(a, b, n) < Two(n)
    decreases n
  {
    if n > 0 { XorBitsBound(a / 2, b / 2, n - 1); }
  }

  /** Applying the same pad twice gives the value back. */
  lemma {:induction false} XorBitsTwice(a: nat, b: nat, n: nat)
    requires a < Two(n)
    ensures XorBits(XorBits(a, b, n), b, n) == a
    decreases n
  {
    if n > 0 {
      XorBitsTwice(a / 2, b / 2, n - 1);
      Halves(XorBits(a / 2, b / 2, n - 1), (a % 2 + b % 2) % 2);
      ParityTwice(a % 2, b % 2);
    }
  }

  lemma Halves(x: nat, y: nat)
    requires y < 2
    ensures (2 * x + y) / 2 == x && (2 * x + y) % 2 == y
  {
  }

  lemma ParityTwice(x: nat, y: nat)
    requires x < 2 && y < 2
    ensures ((x + y) % 2 + y) % 2 == x
  {
  }

  lemma EightBits()
    ensures Two(8) == 256
  {
    assert Two(3) == 8;
    assert Two(6) == 64;
  }

  function Xor(a: byte, b: byte): byte {
    XorBitsBound(a as nat, b as nat, 8);
    EightBits();
    XorBits(a as nat, b as nat, 8) as byte
  }

  lemma XorTwice(a: byte, b: byte)
    ensures Xor(Xor(a, b), b) == a
  {
    EightBits();
    XorBitsTwice(a as nat, b as nat, 8);
  }

  /** The pad over a text no longer than itself. */
  function Padded(pad: seq<byte>, text: seq<byte>): (r: seq<byte>)
    requires |text| <= |pad|
    ensures |r| == |text|
  {
    if text == [] then [] else [Xor(text[0], pad[0])] + Padded(pad[1..], text[1..])
  }

  /** Unwrapping with the pad a text was wrapped with gives the text. */
  lemma {:induction false} PaddedTwice(pad: seq<byte>, text: seq<byte>)
    requires |text| <= |pad|
    ensures Padded(pad, Padded(pad, text)) == text
  {
    if text != [] {
      XorTwice(text[0], pad[0]);
      PaddedTwice(pad[1..], text[1..]);
      var r := Padded(pad, text);
      assert r[1..] == Padded(pad[1..], text[1..]);
      assert text == [text[0]] + text[1..];
    }
  }

  lemma {:induction false} PaddedAt(pad: seq<byte>, text: seq<byte>, i: nat)
    requires |text| <= |pad| && i < |text|
    ensures Padded(pad, text)[i] == Xor(text[i], pad[i])
  {
    if i > 0 { PaddedAt(pad[1..], text[1..], i - 1); }
  }

  /** Bit by bit, the padded text is set where text and pad differ. */
  lemma PaddedBit(pad: seq<byte>, text: seq<byte>, k: nat, i: nat)
    requires |text| <= |pad| && k < |text| && i < 8
    ensures Bit(Padded(pad, text)[k] as nat, i) == if Bit(text[k] as nat, i) == Bit(pad[k] as nat, i) then 0 else 1
  {
    PaddedAt(pad, text, k);
    XorBit(text[k] as nat, pad[k] as nat, 8, i);
  }

  /** Two pads give the same text exactly when they agree over its length. */
  lemma PaddedDetermines(pad: seq<byte>, pad': seq<byte>, text: seq<byte>)
    requires |text| <= |pad| && |text| <= |pad'|
    ensures Padded(pad, text) == Padded(pad', text) <==> pad[..|text|] == pad'[..|text|]
  {
    var r, r' := Padded(pad, text), Padded(pad', text);
    forall i | 0 <= i < |text| ensures r[i] == r'[i] <==> pad[..|text|][i] == pad'[..|text|][i] {
      PaddedAt(pad, text, i);
      PaddedAt(pad', text, i);
      if r[i] == r'[i] { XorCancels(text[i], pad[i], pad'[i]); }
    }
    EqualTogether(r, r', pad[..|text|], pad'[..|text|]);
  }

  lemma EqualTogether(a: seq<byte>, b: seq<byte>, c: seq<byte>, d: seq<byte>)
    requires |a| == |b| == |c| == |d| && forall i :: 0 <= i < |a| ==> (a[i] == b[i] <==> c[i] == d[i])
    ensures a == b <==> c == d
  {
  }

  lemma XorCancels(t: byte, a: byte, b: byte)
    requires Xor(t, a) == Xor(t, b)
    ensures a == b
  {
    EightBits();
    XorBitsCancels(t as nat, a as nat, b as nat, 8);
  }

  lemma ParityCancels(t: nat, x: nat, y: nat)
    requires t < 2 && x < 2 && y < 2 && (t + x) % 2 == (t + y) % 2
    ensures x == y
  {
  }

  lemma {:induction false} XorBitsCancels(t: nat, a: nat, b: nat, n: nat)
    requires a < Two(n) && b < Two(n) && XorBits(t, a, n) == XorBits(t, b, n)
    ensures a == b
    decreases n
  {
    if n > 0 {
      Halves(XorBits(t / 2, a / 2, n - 1), (t % 2 + a % 2) % 2);
      Halves(XorBits(t / 2, b / 2, n - 1), (t % 2 + b % 2) % 2);
      ParityCancels(t % 2, a % 2, b % 2);
      XorBitsCancels(t / 2, a / 2, b / 2, n - 1);
    }
  }

  /** The loop over both byte strings. */
  method Wrap(pad: seq<byte>, text: seq<byte>) returns (r: Result<seq<byte>, ()>)
    ensures r.Err? <==> |pad| < |text|
    ensures r.Ok? ==> r.value == Padded(pad, text)
  {
    if |pad| < |text| { return Err(()); }
    var out := [];
    var i := 0;
    while i < |text|
      invariant 0 <= i <= |text| && out + Padded(pad[i..], text[i..]) == Padded(pad, text)
    {
      assert pad[i..][1..] == pad[i + 1..] && text[i..][1..] == text[i + 1..];
      out := out + [Xor(text[i], pad[i])];
      i := i + 1;
    }
    return Ok(out);
  }
}
