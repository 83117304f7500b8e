/** The bytes the rotation authenticators are computed over (orr/src/macs.rs). */
module Macs {
  import opened Bytes
  import opened Widths

  /** "REQ", "RESP" and "FIN" */
  const TAG_REQ: seq<byte> := [0x52, 0x45, 0x51]
  const TAG_RESP: seq<byte> := [0x52, 0x45, 0x53, 0x50]
  const TAG_FIN: seq<byte> := [0x46, 0x49, 0x4E]

  datatype Message =
    | Req(epoch: nat, from: Text, peer: Text)
    | Resp(epoch: nat, from: Text, peer: Text, epk: seq<byte>)
    | Fin(epoch: nat, from: Text, peer: Text, ct: seq<byte>)

  /** `write_lp16`: the length modulo 2^16 in two bytes, then the field. */
  function Lp16(x: seq<byte>): seq<byte> { Prefixed(x, 2) }

  function Names(m: Message): seq<byte> { BigEndian(m.epoch, 4) + Lp16(m.from) + Lp16(m.peer) }

  function Encode(m: Message): seq<byte> {
    match m
    case Req(_, _, _) => TAG_REQ + Names(m)
    case Resp(_, _, _, epk) => TAG_RESP + (Names(m) + Lp16(epk))
    case Fin(_, _, _, ct) => TAG_FIN + (Names(m) + Lp16(ct))
  }

  /** Where the fields stand: from byte `t` on the epoch, then both names, each after its length. */
  ghost predicate NamesAt(e: seq<byte>, t: nat, m: Message) {
    var a, b := t + 6, t + 8 + |m.from|;
    && b + |m.peer| <= |e| && e[t..t + 4] == BigEndian(m.epoch, 4)
    && e[t + 4..a] == BigEndian(|m.from|, 2) && e[a..a + |m.from|] == m.from
    && e[b - 2..b] == BigEndian(|m.peer|, 2) && e[b..b + |m.peer|] == m.peer
  }

  /** What follows the names: the length and the bytes of one more field. */
  ghost predicate LastAt(e: seq<byte>, at: nat, x: seq<byte>) {
    |e| == at + 2 + |x| && e[at..at + 2] == BigEndian(|x|, 2) && e[at + 2..] == x
  }

  lemma NamesGroup(a: seq<byte>, b: seq<byte>, c: seq<byte>, d: seq<byte>)
    ensures a + b + c + d == a + (b + (c + d))
  {
  }

  lemma NamesLayout(tag: seq<byte>, m: Message, rest: seq<byte>)
    ensures NamesAt(tag + (Names(m) + rest), |tag|, m)
    ensures (tag + (Names(m) + rest))[|tag| + 8 + |m.from| + |m.peer|..] == rest
  {
    var e := tag + (Names(m) + rest);
    assert e[|tag|..] == Names(m) + rest;
    NamesGroup(BigEndian(m.epoch, 4), Lp16(m.from), Lp16(m.peer), rest);
    Front(e, |tag|, BigEndian(m.epoch, 4), Lp16(m.from) + (Lp16(m.peer) + rest));
    PrefixedFront(e, |tag| + 4, m.from, 2, Lp16(m.peer) + rest);
    PrefixedFront(e, |tag| + 6 + |m.from|, m.peer, 2, rest);
  }

  /** The layout of what is authenticated: "REQ", "RESP" or "FIN", the epoch, who asks, who is
      asked, and for the last two the key or the ciphertext. */
  lemma EncodeLayout(m: Message)
    ensures var e, t := Encode(m), if m.Resp? then 4 else 3;
            && t <= |e| && NamesAt(e, t, m)
            && e[..t] == (match m case Req(_, _, _) => [0x52, 0x45, 0x51] case Resp(_, _, _, _) => [0x52, 0x45, 0x53, 0x50]
                          case Fin(_, _, _, _) => [0x46, 0x49, 0x4E])
            && var at := t + 8 + |m.from| + |m.peer|;
               match m case Req(_, _, _) => |e| == at case Resp(_, _, _, epk) => LastAt(e, at, epk) case Fin(_, _, _, ct) => LastAt(e, at, ct)
  {
    match m
    case Req(_, _, _) =>
      NamesLayout(TAG_REQ, m, []);
      assert Names(m) + [] == Names(m);
    case Resp(_, _, _, epk) => NamesLayout(TAG_RESP, m, Lp16(epk));
    case Fin(_, _, _, ct) => NamesLayout(TAG_FIN, m, Lp16(ct));
  }

  /** Every field fits its length prefix. */
  ghost predicate Fits(m: Message) {
    && m.epoch < Pow256(4) && |m.from| < Pow256(2) && |m.peer| < Pow256(2)
    && (m.Resp? ==> |m.epk| < Pow256(2)) && (m.Fin? ==> |m.ct| < Pow256(2))
  }

  lemma NamesSplit(e: nat, f: Text, p: Text, x: seq<byte>, e': nat, f': Text, p': Text, x': seq<byte>, w: nat, v: nat)
    requires e < Pow256(w) && e' < Pow256(w)
    requires |f| < Pow256(v) && |p| < Pow256(v) && |f'| < Pow256(v) && |p'| < Pow256(v)
    requires BigEndian(e, w) + Prefixed(f, v) + Prefixed(p, v) + x == BigEndian(e', w) + Prefixed(f', v) + Prefixed(p', v) + x'
    ensures e == e' && f == f' && p == p' && x == x'
  {
    Regroup(BigEndian(e, w), Prefixed(f, v), Prefixed(p, v), x);
    Regroup(BigEndian(e', w), Prefixed(f', v), Prefixed(p', v), x');
    ConcatSplits(BigEndian(e, w), Prefixed(f, v) + Prefixed(p, v) + x, BigEndian(e', w), Prefixed(f', v) + Prefixed(p', v) + x');
    BigEndianInjective(e, e', w);
    TwoFieldsSplit(f, p, x, f', p', x', v);
  }

  lemma Regroup(a: seq<byte>, b: seq<byte>, c: seq<byte>, d: seq<byte>)
    ensures a + b + c + d == a + (b + c + d)
  {
  }

  lemma TagsDiffer(m: Message, n: Message)
    requires Encode(m) == Encode(n)
    ensures m.Req? == n.Req? && m.Resp? == n.Resp? && m.Fin? == n.Fin?
  {
    ThirdByte(m);
    ThirdByte(n);
  }

  lemma ThirdByte(m: Message)
    ensures |Encode(m)| >= 3
    ensures (Encode(m)[2] == 0x51 <==> m.Req?) && (Encode(m)[2] == 0x53 <==> m.Resp?) && (Encode(m)[2] == 0x4E <==> m.Fin?)
  {
  }

  /** What is authenticated determines the phase and every field. */
  lemma EncodeInjective(m: Message, n: Message)
    requires Fits(m) && Fits(n) && Encode(m) == Encode(n)
    ensures m == n
  {
    TagsDiffer(m, n);
    match m
    case Req(_, _, _) =>
      ConcatSplits(TAG_REQ, Names(m), TAG_REQ, Names(n));
      assert Names(m) + [] == Names(m) && Names(n) + [] == Names(n);
      NamesSplit(m.epoch, m.from, m.peer, [], n.epoch, n.from, n.peer, [], 4, 2);
    case Resp(_, _, _, epk) =>
      ConcatSplits(TAG_RESP, Names(m) + Lp16(epk), TAG_RESP, Names(n) + Lp16(n.epk));
      NamesSplit(m.epoch, m.from, m.peer, Lp16(epk), n.epoch, n.from, n.peer, Lp16(n.epk), 4, 2);
      LastField(epk, n.epk, 2);
    case Fin(_, _, _, ct) =>
      ConcatSplits(TAG_FIN, Names(m) + Lp16(ct), TAG_FIN, Names(n) + Lp16(n.ct));
      NamesSplit(m.epoch, m.from, m.peer, Lp16(ct), n.epoch, n.from, n.peer, Lp16(n.ct), 4, 2);
      LastField(ct, n.ct, 2);
  }

  lemma LastField(x: seq<byte>, y: seq<byte>, w: nat)
    requires |x| < Pow256(w) && |y| < Pow256(w) && Prefixed(x, w) == Prefixed(y, w)
    ensures x == y
  {
    assert Prefixed(x, w) + [] == Prefixed(x, w) && Prefixed(y, w) + [] == Prefixed(y, w);
    PrefixedSplits(x, [], y, [], w);
  }

  function Zeros(n: nat): (z: seq<byte>)
    ensures |z| == n && forall i :: 0 <= i < n ==> z[i] == 0
  {
    if n == 0 then [] else Zeros(n - 1) + [0]
  }

  lemma {:induction false} BigEndianOfMultiple(q: nat, w: nat)
    ensures BigEndian(q * Pow256(w), w) == Zeros(w)
  {
    if w > 0 {
      var p := Pow256(w - 1);
      assert q * Pow256(w) == 256 * (q * p) by { Reorder(q, p); }
      assert q * Pow256(w) / 256 == q * p && q * Pow256(w) % 256 == 0;
      BigEndianOfMultiple(q, w - 1);
    }
  }

  lemma Reorder(q: nat, p: nat)
    ensures q * (256 * p) == 256 * (q * p)
  {
  }

  /** A field of any multiple of 65536 zero bytes can change sides unnoticed: the bound on the
      fields is needed. */
  lemma OverlongFieldsCollide(epoch: nat, q: nat)
    requires q > 0
    ensures var z := Zeros(q * Pow256(2)); var a, b := Req(epoch, z, []), Req(epoch, [], z);
            a != b && Encode(a) == Encode(b)
  {
    var z := Zeros(q * Pow256(2));
    assert Pow256(2) == 65536;
    assert |z| == q * 65536 > 0;
    BigEndianOfMultiple(q, 2);
    BigEndianOfMultiple(0, 2);
    assert Lp16(z) + Lp16([]) == Zeros(2) + z + Zeros(2) + [];
    ZerosCommute(z, Zeros(2));
    assert Names(Req(epoch, z, [])) == BigEndian(epoch, 4) + (Lp16(z) + Lp16([]));
    assert Names(Req(epoch, [], z)) == BigEndian(epoch, 4) + (Lp16([]) + Lp16(z));
    assert Lp16([]) + Lp16(z) == Zeros(2) + (Zeros(2) + z);
    assert Lp16(z) + Lp16([]) == Zeros(2) + (z + Zeros(2));
  }

  lemma ZerosCommute(a: seq<byte>, b: seq<byte>)
    requires (forall i :: 0 <= i < |a| ==> a[i] == 0) && (forall i :: 0 <= i < |b| ==> b[i] == 0)
    ensures a + b == b + a
  {
  }

  /** No field is longer than `bound`. */
  ghost predicate Within(m: Message, bound: nat) {
    && m.epoch < U32 && |m.from| <= bound && |m.peer| <= bound
    && (m.Resp? ==> |m.epk| <= bound) && (m.Fin? ==> |m.ct| <= bound)
  }

  ghost predicate Collide(m: Message, n: Message) { m != n && Encode(m) == Encode(n) }

  /** For messages whose fields are bounded in length, no two authenticate the same bytes
      exactly when the bound is below 65536. */
  lemma InjectiveExactly(bound: nat)
    ensures (forall m, n :: Within(m, bound) && Within(n, bound) ==> !Collide(m, n)) <==> bound < 65536
  {
    BytesOf();
    if bound < 65536 {
      forall m, n | Within(m, bound) && Within(n, bound) ensures !Collide(m, n) {
        if Encode(m) == Encode(n) { EncodeInjective(m, n); }
      }
    } else {
      OverlongFieldsCollide(0, 1);
      var z := Zeros(1 * Pow256(2));
      var a, b := Req(0, z, []), Req(0, [], z);
      assert Within(a, bound) && Within(b, bound) && Collide(a, b);
    }
  }
}
