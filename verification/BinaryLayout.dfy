/** Where each byte of the binary forms stands, and which inputs are accepted. */
module BinaryLayout {
  import opened Wrappers
  import opened Bytes
  import opened BinaryWire

  /** "QKDB", version 1, and the size in bits and the number of keys, least significant byte first. */
  ghost predicate HeaderAt(buf: seq<byte>, bits: nat, count: nat) {
    && |buf| >= 11 && buf[..4] == [0x51, 0x4B, 0x44, 0x42] && buf[4] == 1
    && (forall i :: 0 <= i < 2 ==> buf[5 + i] as nat == bits / Pow256(i) % 256)
    && (forall i :: 0 <= i < 4 ==> buf[7 + i] as nat == count / Pow256(i) % 256)
  }

  lemma HeaderLayout(bits: nat, count: nat, body: seq<byte>)
    ensures HeaderAt(KeysHeader(bits, count) + body, bits, count)
  {
    var buf := KeysHeader(bits, count) + body;
    forall i | 0 <= i < 2 ensures buf[5 + i] as nat == bits / Pow256(i) % 256 { LittleEndianAt(bits, 2, i); }
    forall i | 0 <= i < 4 ensures buf[7 + i] as nat == count / Pow256(i) % 256 { LittleEndianAt(count, 4, i); }
  }

  lemma {:induction false} BodyAt(keys: seq<Key>, k: nat, i: nat)
    requires Uniform(keys, k) && i < |keys|
    ensures Span(i, k) + 16 + k <= |Body(keys)|
    ensures Body(keys)[Span(i, k)..Span(i, k) + 16] == keys[i].0
    ensures Body(keys)[Span(i, k) + 16..Span(i, k) + 16 + k] == keys[i].1
  {
    var n := |keys| - 1;
    BodyLength(keys[..n], k);
    var b := Body(keys[..n]);
    if i < n {
      BodyAt(keys[..n], k, i);
      FrontSlices(b, keys[n].0 + keys[n].1, Span(i, k), Span(i, k) + 16, Span(i, k) + 16 + k);
      assert Body(keys) == b + (keys[n].0 + keys[n].1);
    }
  }

  lemma FrontSlices(b: seq<byte>, more: seq<byte>, x: nat, y: nat, z: nat)
    requires x <= y <= z <= |b|
    ensures (b + more)[x..y] == b[x..y] && (b + more)[y..z] == b[y..z]
  {
  }

  /** Key `i` starts at byte `11 + i * (16 + k)`: its id, then its material. */
  lemma KeysLayout(keys: seq<Key>, bits: nat, i: nat)
    requires Uniform(keys, KeyBytes(bits)) && i < |keys|
    ensures var buf, k := KeysHeader(bits, |keys|) + Body(keys), (bits + 7) / 8; var at := 11 + i * (16 + k);
            && HeaderAt(buf, bits, |keys|)
            && at + 16 + k <= |buf| && buf[at..at + 16] == keys[i].0 && buf[at + 16..at + 16 + k] == keys[i].1
  {
    var k := KeyBytes(bits);
    KeyBytesIs(bits);
    SpanIsProduct(i, k);
    HeaderLayout(bits, |keys|, Body(keys));
    BodyAt(keys, k, i);
    Behind(KeysHeader(bits, |keys|), Body(keys), Span(i, k), Span(i, k) + 16, Span(i, k) + 16 + k);
  }

  lemma Behind(h: seq<byte>, b: seq<byte>, x: nat, y: nat, z: nat)
    requires x <= y <= z <= |b|
    ensures (h + b)[|h| + x..|h| + y] == b[x..y] && (h + b)[|h| + y..|h| + z] == b[y..z]
  {
  }

  /** Id `i` starts at byte `9 + 16 * i`. */
  lemma IdsLayout(ids: seq<seq<byte>>, i: nat)
    requires (forall j :: 0 <= j < |ids| ==> |ids[j]| == 16) && i < |ids|
    ensures var buf := IdsHeader(|ids|) + Body(WithoutMaterial(ids)); var at := 9 + i * 16;
            && |buf| >= 9 && buf[..4] == [0x51, 0x4B, 0x44, 0x42] && buf[4] == 1
            && (forall j :: 0 <= j < 4 ==> buf[5 + j] as nat == |ids| / Pow256(j) % 256)
            && at + 16 <= |buf| && buf[at..at + 16] == ids[i]
  {
    var keys := WithoutMaterial(ids);
    var h, b := IdsHeader(|ids|), Body(keys);
    SpanIsProduct(i, 0);
    BodyAt(keys, 0, i);
    Behind(h, b, Span(i, 0), Span(i, 0) + 16, Span(i, 0) + 16);
    forall j | 0 <= j < 4 ensures (h + b)[5 + j] as nat == |ids| / Pow256(j) % 256 { LittleEndianAt(|ids|, 4, j); }
  }

  // ---- what is accepted ----

  function Word(s: seq<byte>, at: nat): nat
    requires at + 2 <= |s|
  {
    s[at] as nat + 256 * s[at + 1] as nat
  }

  function DoubleWord(s: seq<byte>, at: nat): nat
    requires at + 4 <= |s|
  {
    Word(s, at) + 65536 * Word(s, at + 2)
  }

  lemma ReadWord(s: seq<byte>)
    requires |s| == 2
    ensures FromLittleEndian(s) == Word(s, 0)
  {
    assert s[1..][1..] == [];
    assert FromLittleEndian(s[1..]) == s[1] as nat;
  }

  lemma ReadDoubleWord(s: seq<byte>)
    requires |s| == 4
    ensures FromLittleEndian(s) == DoubleWord(s, 0)
  {
    assert s[1..][1..] == s[2..];
    ReadWord(s[2..]);
    assert FromLittleEndian(s[1..]) == s[1] as nat + 256 * FromLittleEndian(s[2..]);
  }

  /** What a buffer that is long enough for a header of `n` bytes lacks, in the order it is looked at. */
  ghost predicate Fails(buf: seq<byte>, n: nat, e: BinaryError)
    requires n >= 5
  {
    if |buf| < n then e == Truncated
    else if buf[..4] != [0x51, 0x4B, 0x44, 0x42] then e == BadMagic
    else buf[4] != 1 && e == BadVersion(buf[4])
  }

  ghost predicate Begins(buf: seq<byte>, n: nat)
    requires n >= 5
  {
    |buf| >= n && buf[..4] == [0x51, 0x4B, 0x44, 0x42] && buf[4] == 1
  }

  /** A buffer is accepted exactly if it begins as it must and is long enough for the keys it
      announces; otherwise the error names the first thing that is wrong. */
  lemma KeysAccepted(buf: seq<byte>)
    ensures var r := Unpacked(buf);
            if !Begins(buf, 11) then r.Err? && Fails(buf, 11, r.error)
            else var n, k := DoubleWord(buf, 7), (Word(buf, 5) + 7) / 8;
                 if |buf| < 11 + n * (16 + k) then r == Err(Truncated) else r.Ok? && |r.value| == n && Uniform(r.value, k)
  {
    if Begins(buf, 11) {
      ReadWord(buf[5..7]);
      ReadDoubleWord(buf[7..11]);
      KeyBytesIs(Bits(buf));
      SpanIsProduct(DoubleWord(buf, 7), KeyBytes(Bits(buf)));
      if Unpacked(buf).Ok? { CutUniform(buf, 11, DoubleWord(buf, 7), KeyBytes(Bits(buf))); }
    }
  }

  lemma IdsAccepted(buf: seq<byte>)
    ensures var r := UnpackedIds(buf);
            if !Begins(buf, 9) then r.Err? && Fails(buf, 9, r.error)
            else var n := DoubleWord(buf, 5);
                 if |buf| < 9 + n * 16 then r == Err(Truncated) else r.Ok? && |r.value| == n && Uniform(r.value, 0)
  {
    if Begins(buf, 9) {
      ReadDoubleWord(buf[5..9]);
      SpanIsProduct(DoubleWord(buf, 5), 0);
      if UnpackedIds(buf).Ok? { CutUniform(buf, 9, DoubleWord(buf, 5), 0); }
    }
  }
}
