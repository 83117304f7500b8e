/** Byte strings, fixed-width integers and length prefixes, as the wire formats use them. */
module Bytes {
  newtype byte = b: int | 0 <= b < 256

  /** A UTF-8 string. Rust orders `String` keys by these bytes. */
  type Text = seq<byte>

  function Pow256(k: nat): (p: nat)
    ensures p > 0
  {
    if k == 0 then 1 else 256 * Pow256(k - 1)
  }

  /** The low `k` bytes of `n`, most significant first: `(n as uK).to_be_bytes()`. */
  function BigEndian(n: nat, k: nat): (s: seq<byte>)
    ensures |s| == k
  {
    if k == 0 then [] else BigEndian(n / 256, k - 1) + [(n % 256) as byte]
  }

  /** The low `k` bytes of `n`, least significant first: `(n as uK).to_le_bytes()`. */
  function LittleEndian(n: nat, k: nat): (s: seq<byte>)
    ensures |s| == k
  {
    if k == 0 then [] else [(n % 256) as byte] + LittleEndian(n / 256, k - 1)
  }

  function FromLittleEndian(s: seq<byte>): (n: nat) {
    if s == [] then 0 else s[0] as nat + 256 * FromLittleEndian(s[1..])
  }

  lemma DivTwice(n: nat, p: nat)
    requires p > 0
    ensures n / 256 / p == n / (256 * p)
  {
    var q, r := n / 256 / p, n / 256 % p;
    assert n / 256 == p * q + r;
    assert n == 256 * (p * q + r) + n % 256;
    assert 256 * (p * q + r) == 256 * p * q + 256 * r;
    Quotient(n, 256 * p, q, 256 * r + n % 256);
  }

  lemma Quotient(n: nat, d: nat, q: nat, r: nat)
    requires d > 0 && n == d * q + r && r < d
    ensures n / d == q
  {
    var k := n / d;
    assert n == d * k + n % d;
    if k > q {
      assert d * k >= d * (q + 1) by { Grow(d, q + 1, k); }
    } else if k < q {
      assert d * q >= d * (k + 1) by { Grow(d, k + 1, q); }
    }
  }

  lemma Grow(d: nat, a: nat, b: nat)
    requires a <= b
    ensures d * a <= d * b
  {
  }

  /** Byte `i` from the right stands for a multiple of `256^i`. */
  lemma {:induction false} BigEndianAt(n: nat, k: nat, i: nat)
    requires i < k
    ensures BigEndian(n, k)[k - 1 - i] as nat == n / Pow256(i) % 256
  {
    if i > 0 {
      BigEndianAt(n / 256, k - 1, i - 1);
      DivTwice(n, Pow256(i - 1));
    }
  }

  /** Byte `i` from the left stands for a multiple of `256^i`. */
  lemma {:induction false} LittleEndianAt(n: nat, k: nat, i: nat)
    requires i < k
    ensures LittleEndian(n, k)[i] as nat == n / Pow256(i) % 256
  {
    if i > 0 {
      LittleEndianAt(n / 256, k - 1, i - 1);
      DivTwice(n, Pow256(i - 1));
    }
  }

  lemma {:induction false} LittleEndianRoundTrip(n: nat, k: nat)
    requires n < Pow256(k)
    ensures FromLittleEndian(LittleEndian(n, k)) == n
  {
    if k > 0 {
      LittleEndianRoundTrip(n / 256, k - 1);
      assert LittleEndian(n, k)[1..] == LittleEndian(n / 256, k - 1);
    }
  }

  /** Reading back any `k` bytes and writing them again yields the same bytes. */
  lemma {:induction false} LittleEndianOnto(s: seq<byte>)
    ensures FromLittleEndian(s) < Pow256(|s|)
    ensures LittleEndian(FromLittleEndian(s), |s|) == s
  {
    if s != [] {
      LittleEndianOnto(s[1..]);
      var v := FromLittleEndian(s[1..]);
      assert FromLittleEndian(s) / 256 == v && FromLittleEndian(s) % 256 == s[0] as nat;
      assert s == [s[0]] + s[1..];
    }
  }

  lemma {:induction false} BigEndianInjective(m: nat, n: nat, k: nat)
    requires m < Pow256(k) && n < Pow256(k)
    requires BigEndian(m, k) == BigEndian(n, k)
    ensures m == n
  {
    if k > 0 {
      var bm, bn := BigEndian(m, k), BigEndian(n, k);
      assert bm[..k - 1] == BigEndian(m / 256, k - 1) && bn[..k - 1] == BigEndian(n / 256, k - 1);
      assert bm[k - 1] == (m % 256) as byte && bn[k - 1] == (n % 256) as byte;
      BigEndianInjective(m / 256, n / 256, k - 1);
    }
  }

  /** `w` big-endian length bytes followed by the field itself. */
  function Prefixed(s: seq<byte>, w: nat): (r: seq<byte>)
    ensures |r| == w + |s|
  {
    BigEndian(|s|, w) + s
  }

  /** What stands at a place, and what behind it. */
  lemma Front(a: seq<byte>, at: nat, x: seq<byte>, rest: seq<byte>)
    requires at <= |a| && a[at..] == x + rest
    ensures at + |x| <= |a| && a[at..at + |x|] == x && a[at + |x|..] == rest
  {
    assert a[at..at + |x|] == a[at..][..|x|] && a[at + |x|..] == a[at..][|x|..];
  }

  lemma PrefixedFront(a: seq<byte>, at: nat, x: seq<byte>, w: nat, rest: seq<byte>)
    requires at <= |a| && a[at..] == Prefixed(x, w) + rest
    ensures at + w + |x| <= |a| && a[at..at + w] == BigEndian(|x|, w) && a[at + w..at + w + |x|] == x && a[at + w + |x|..] == rest
  {
    assert Prefixed(x, w) + rest == BigEndian(|x|, w) + (x + rest);
    Front(a, at, BigEndian(|x|, w), x + rest);
    Front(a, at + w, x, rest);
  }

  /** A length-prefixed field can be split off a byte string in only one way. */
  lemma PrefixedSplits(s: seq<byte>, x: seq<byte>, t: seq<byte>, y: seq<byte>, w: nat)
    requires |s| < Pow256(w) && |t| < Pow256(w)
    requires Prefixed(s, w) + x == Prefixed(t, w) + y
    ensures s == t && x == y
  {
    var u := Prefixed(s, w) + x;
    assert u[..w] == BigEndian(|s|, w) && u[..w] == BigEndian(|t|, w);
    BigEndianInjective(|s|, |t|, w);
    assert u[w..w + |s|] == s && u[w..w + |s|] == t;
    assert u[w + |s|..] == x && u[w + |s|..] == y;
  }

  /** So can two fields in a row. */
  lemma TwoFieldsSplit(s: seq<byte>, t: seq<byte>, x: seq<byte>, s': seq<byte>, t': seq<byte>, x': seq<byte>, w: nat)
    requires |s| < Pow256(w) && |t| < Pow256(w) && |s'| < Pow256(w) && |t'| < Pow256(w)
    requires Prefixed(s, w) + Prefixed(t, w) + x == Prefixed(s', w) + Prefixed(t', w) + x'
    ensures s == s' && t == t' && x == x'
  {
    var y, y' := Prefixed(t, w) + x, Prefixed(t', w) + x';
    assert Prefixed(s, w) + y == Prefixed(s, w) + Prefixed(t, w) + x;
    assert Prefixed(s', w) + y' == Prefixed(s', w) + Prefixed(t', w) + x';
    PrefixedSplits(s, y, s', y', w);
    PrefixedSplits(t, x, t', x', w);
  }

  /** Two concatenations with equal first lengths split the same way. */
  lemma ConcatSplits<T>(a: seq<T>, x: seq<T>, b: seq<T>, y: seq<T>)
    requires |a| == |b| && a + x == b + y
    ensures a == b && x == y
  {
    assert (a + x)[..|a|] == a && (b + y)[..|b|] == b;
    assert (a + x)[|a|..] == x && (b + y)[|b|..] == y;
  }

  /** A common domain label, two fields and a rest split in only one way. */
  lemma DomainSplits(d: seq<byte>, s: seq<byte>, t: seq<byte>, x: seq<byte>,
                     s': seq<byte>, t': seq<byte>, x': seq<byte>, w: nat)
    requires |s| < Pow256(w) && |t| < Pow256(w) && |s'| < Pow256(w) && |t'| < Pow256(w)
    requires d + Prefixed(s, w) + Prefixed(t, w) + x == d + Prefixed(s', w) + Prefixed(t', w) + x'
    ensures s == s' && t == t' && x == x'
  {
    var y, y' := Prefixed(s, w) + Prefixed(t, w) + x, Prefixed(s', w) + Prefixed(t', w) + x';
    assert d + y == d + Prefixed(s, w) + Prefixed(t, w) + x;
    assert d + y' == d + Prefixed(s', w) + Prefixed(t', w) + x';
    ConcatSplits(d, y, d, y');
    TwoFieldsSplit(s, t, x, s', t', x', w);
  }
}
