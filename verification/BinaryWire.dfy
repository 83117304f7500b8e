/** The binary form of key lists and key id lists (etsi/src/binary.rs). */
module BinaryWire {
  import opened Wrappers
  import opened Bytes
  import opened Widths

  /** "QKDB" */
  const MAGIC: seq<byte> := [0x51, 0x4B, 0x44, 0x42]
  const VERSION: byte := 1
  /** Bytes of the size field and of the count field. */
  const WIDTHS: seq<nat> := [2, 4]
  const KEYS_HDR_LEN: nat := 11
  const IDS_HDR_LEN: nat := 9

  datatype BinaryError = BadMagic | BadVersion(v: byte) | Truncated

  /** A key id of 16 bytes with its material. */
  type Key = (seq<byte>, seq<byte>)

  /** Bytes that hold so many bits: `div_ceil(8)`. */
  function KeyBytes(bits: nat): nat { if bits == 0 then 0 else if bits <= 8 then 1 else 1 + KeyBytes(bits - 8) }

  lemma {:induction false} KeyBytesIs(bits: nat)
    ensures KeyBytes(bits) == (bits + 7) / 8
  {
    if bits > 8 { KeyBytesIs(bits - 8); }
  }

  ghost predicate Uniform(keys: seq<Key>, k: nat) {
    forall i :: 0 <= i < |keys| ==> |keys[i].0| == 16 && |keys[i].1| == k
  }

  // ---- what is written ----

  function Body(keys: seq<Key>): seq<byte> {
    if keys == [] then [] else Body(keys[..|keys| - 1]) + keys[|keys| - 1].0 + keys[|keys| - 1].1
  }

  function KeysHeader(bits: nat, count: nat): seq<byte> {
    MAGIC + [VERSION] + LittleEndian(bits, WIDTHS[0]) + LittleEndian(count, WIDTHS[1])
  }

  function IdsHeader(count: nat): seq<byte> { MAGIC + [VERSION] + LittleEndian(count, WIDTHS[1]) }

  function WithoutMaterial(ids: seq<seq<byte>>): (r: seq<Key>)
    ensures |r| == |ids| && forall i :: 0 <= i < |r| ==> r[i] == (ids[i], [])
  {
    if ids == [] then [] else WithoutMaterial(ids[..|ids| - 1]) + [(ids[|ids| - 1], [])]
  }

  method PackKeys(keys: seq<Key>, bits: nat) returns (out: seq<byte>)
    ensures out == KeysHeader(bits, |keys|) + Body(keys)
  {
    out := MAGIC + [VERSION] + LittleEndian(bits, 2) + LittleEndian(|keys|, 4);
    ghost var header := out;
    for i := 0 to |keys|
      invariant out == header + Body(keys[..i])
    {
      assert keys[..i + 1][..i] == keys[..i];
      out := out + keys[i].0 + keys[i].1;
    }
    assert keys[..|keys|] == keys;
  }

  method PackKeyIds(ids: seq<seq<byte>>) returns (out: seq<byte>)
    ensures out == IdsHeader(|ids|) + Body(WithoutMaterial(ids))
  {
    out := MAGIC + [VERSION] + LittleEndian(|ids|, 4);
    ghost var header, keys := out, WithoutMaterial(ids);
    for i := 0 to |ids|
      invariant out == header + Body(keys[..i])
    {
      assert keys[..i + 1][..i] == keys[..i];
      assert keys[i] == (ids[i], []);
      out := out + ids[i];
    }
    assert keys[..|keys|] == keys;
  }

  // ---- what is read ----

  /** The length of `n` records of `16 + k` bytes. */
  function Span(n: nat, k: nat): nat { if n == 0 then 0 else Span(n - 1, k) + 16 + k }

  lemma {:induction false} SpanIsProduct(n: nat, k: nat)
    ensures Span(n, k) == n * (16 + k)
  {
    if n > 0 {
      SpanIsProduct(n - 1, k);
      Fewer(n, 16 + k);
    }
  }

  lemma Fewer(n: nat, w: nat)
    requires n > 0
    ensures (n - 1) * w + w == n * w
  {
  }

  /** `n` records of `16 + k` bytes from `cur` on. */
  function Cut(buf: seq<byte>, cur: nat, n: nat, k: nat): (r: seq<Key>)
    requires cur + Span(n, k) <= |buf|
    ensures |r| == n
  {
    if n == 0 then [] else
    var at := cur + Span(n - 1, k);
    Cut(buf, cur, n - 1, k) + [(buf[at..at + 16], buf[at + 16..at + 16 + k])]
  }

  /** The header checks common to both forms; `at` is where the count is. */
  function Opened(buf: seq<byte>, at: nat): Result<nat, BinaryError>
    requires 5 <= at
  {
    if |buf| < at + 4 then Err(Truncated)
    else if buf[..4] != MAGIC then Err(BadMagic)
    else if buf[4] != VERSION then Err(BadVersion(buf[4]))
    else Ok(FromLittleEndian(buf[at..at + 4]))
  }

  function Bits(buf: seq<byte>): nat
    requires |buf| >= 7
  {
    FromLittleEndian(buf[5..7])
  }

  /** The records, if the buffer is long enough for as many as announced. */
  function Records(buf: seq<byte>, start: nat, count: nat, k: nat): Result<seq<Key>, BinaryError> {
    if |buf| < start + Span(count, k) then Err(Truncated) else Ok(Cut(buf, start, count, k))
  }

  function Unpacked(buf: seq<byte>): Result<seq<Key>, BinaryError> {
    match Opened(buf, 7)
    case Err(e) => Err(e)
    case Ok(count) => Records(buf, KEYS_HDR_LEN, count, KeyBytes(Bits(buf)))
  }

  function UnpackedIds(buf: seq<byte>): Result<seq<Key>, BinaryError> {
    match Opened(buf, 5)
    case Err(e) => Err(e)
    case Ok(count) => Records(buf, IDS_HDR_LEN, count, 0)
  }

  lemma {:induction false} SpanSplits(n: nat, m: nat, k: nat)
    requires n <= m
    ensures Span(n, k) <= Span(m, k) && (n < m ==> Span(n, k) + 16 + k <= Span(m, k))
    decreases m
  {
    if n < m { SpanSplits(n, m - 1, k); }
  }

  /** The cursor loop; every slice lies inside the buffer. */
  method CutLoop(buf: seq<byte>, start: nat, count: nat, k: nat) returns (out: seq<Key>)
    requires start + Span(count, k) <= |buf|
    ensures out == Cut(buf, start, count, k)
  {
    out := [];
    var cur, i := start, 0;
    while i < count
      invariant 0 <= i <= count && cur == start + Span(i, k) <= |buf|
      invariant out == Cut(buf, start, i, k)
    {
      SpanSplits(i, count, k);
      out := out + [(buf[cur..cur + 16], buf[cur + 16..cur + 16 + k])];
      cur, i := cur + 16 + k, i + 1;
    }
  }

  method UnpackKeys(buf: seq<byte>) returns (r: Result<seq<Key>, BinaryError>)
    ensures r == Unpacked(buf)
  {
    if |buf| < KEYS_HDR_LEN { return Err(Truncated); }
    if buf[..4] != MAGIC { return Err(BadMagic); }
    if buf[4] != VERSION { return Err(BadVersion(buf[4])); }
    var bits := FromLittleEndian(buf[5..7]);
    KeyBytesIs(bits);
    var k := (bits + 7) / 8;
    var count := FromLittleEndian(buf[7..11]);
    SpanIsProduct(count, k);
    if |buf| < KEYS_HDR_LEN + count * (16 + k) { return Err(Truncated); }
    var out := CutLoop(buf, KEYS_HDR_LEN, count, k);
    return Ok(out);
  }

  method UnpackKeyIds(buf: seq<byte>) returns (r: Result<seq<Key>, BinaryError>)
    ensures r == UnpackedIds(buf)
  {
    if |buf| < IDS_HDR_LEN { return Err(Truncated); }
    if buf[..4] != MAGIC { return Err(BadMagic); }
    if buf[4] != VERSION { return Err(BadVersion(buf[4])); }
    var count := FromLittleEndian(buf[5..9]);
    SpanIsProduct(count, 0);
    if |buf| < IDS_HDR_LEN + count * 16 { return Err(Truncated); }
    var out := CutLoop(buf, IDS_HDR_LEN, count, 0);
    return Ok(out);
  }

  // ---- round trips ----

  lemma {:induction false} BodyLength(keys: seq<Key>, k: nat)
    requires Uniform(keys, k)
    ensures |Body(keys)| == Span(|keys|, k)
  {
    if keys != [] { BodyLength(keys[..|keys| - 1], k); }
  }

  lemma LastRecord(h: seq<byte>, b: seq<byte>, id: seq<byte>, mat: seq<byte>, rest: seq<byte>)
    ensures var buf, at, mid := h + (b + id + mat) + rest, |h| + |b|, |h| + |b| + |id|;
            && buf == h + b + (id + mat + rest) && mid + |mat| <= |buf|
            && buf[at..mid] == id && buf[mid..mid + |mat|] == mat
  {
  }

  lemma {:induction false} CutOfBody(h: seq<byte>, keys: seq<Key>, rest: seq<byte>, k: nat)
    requires Uniform(keys, k)
    ensures |h| + Span(|keys|, k) <= |h + Body(keys) + rest|
    ensures Cut(h + Body(keys) + rest, |h|, |keys|, k) == keys
  {
    BodyLength(keys, k);
    if keys != [] {
      var init := keys[..|keys| - 1];
      var (id, mat) := keys[|keys| - 1];
      BodyLength(init, k);
      LastRecord(h, Body(init), id, mat, rest);
      CutOfBody(h, init, id + mat + rest, k);
    }
  }

  lemma JoinSlices(buf: seq<byte>, a: nat, b: nat, c: nat, d: nat)
    requires a <= b <= c <= d <= |buf|
    ensures buf[a..b] + buf[b..c] + buf[c..d] == buf[a..d]
  {
  }

  lemma {:induction false} CutUniform(buf: seq<byte>, cur: nat, n: nat, k: nat)
    requires cur + Span(n, k) <= |buf|
    ensures Uniform(Cut(buf, cur, n, k), k)
  {
    if n > 0 { CutUniform(buf, cur, n - 1, k); }
  }

  lemma BodySnoc(q: seq<Key>, id: seq<byte>, mat: seq<byte>)
    ensures Body(q + [(id, mat)]) == Body(q) + id + mat
  {
    assert (q + [(id, mat)])[..|q|] == q;
  }

  lemma LastCut(buf: seq<byte>, cur: nat, at: nat, q: seq<Key>, k: nat)
    requires cur <= at && at + 16 + k <= |buf| && Body(q) == buf[cur..at]
    ensures Body(q + [(buf[at..at + 16], buf[at + 16..at + 16 + k])]) == buf[cur..at + 16 + k]
  {
    BodySnoc(q, buf[at..at + 16], buf[at + 16..at + 16 + k]);
    JoinSlices(buf, cur, at, at + 16, at + 16 + k);
  }

  lemma {:induction false} BodyOfCut(buf: seq<byte>, cur: nat, n: nat, k: nat)
    requires cur + Span(n, k) <= |buf|
    ensures Body(Cut(buf, cur, n, k)) == buf[cur..cur + Span(n, k)]
  {
    if n > 0 {
      BodyOfCut(buf, cur, n - 1, k);
      LastCut(buf, cur, cur + Span(n - 1, k), Cut(buf, cur, n - 1, k), k);
    }
  }

  lemma CountWraps(n: nat)
    ensures FromLittleEndian(LittleEndian(n, 4)) == n % U32
  {
    var a, b, c := n / 256, n / 256 / 256, n / 256 / 256 / 256;
    assert LittleEndian(c, 1) == [(c % 256) as byte] + LittleEndian(c / 256, 0);
    assert FromLittleEndian(LittleEndian(c, 1)) == c % 256;
    assert LittleEndian(b, 2)[1..] == LittleEndian(c, 1);
    assert FromLittleEndian(LittleEndian(b, 2)) == b % 256 + 256 * (c % 256);
    assert LittleEndian(a, 3)[1..] == LittleEndian(b, 2);
    assert FromLittleEndian(LittleEndian(a, 3)) == a % 256 + 256 * (b % 256 + 256 * (c % 256));
    assert LittleEndian(n, 4)[1..] == LittleEndian(a, 3);
  }

  function Tail(keys: seq<Key>, n: nat): seq<byte>
    requires n <= |keys|
  {
    if n == |keys| then [] else Tail(keys[..|keys| - 1], n) + keys[|keys| - 1].0 + keys[|keys| - 1].1
  }

  lemma {:induction false} BodySplit(keys: seq<Key>, n: nat)
    requires n <= |keys|
    ensures Body(keys) == Body(keys[..n]) + Tail(keys, n)
  {
    if n == |keys| {
      assert keys[..n] == keys;
    } else {
      BodySplit(keys[..|keys| - 1], n);
      assert keys[..|keys| - 1][..n] == keys[..n];
    }
  }

  lemma RecordsFirst(h: seq<byte>, keys: seq<Key>, n: nat, k: nat)
    requires Uniform(keys, k) && n <= |keys|
    ensures Records(h + Body(keys), |h|, n, k) == Ok(keys[..n])
  {
    BodySplit(keys, n);
    assert h + Body(keys) == h + Body(keys[..n]) + Tail(keys, n);
    CutOfBody(h, keys[..n], Tail(keys, n), k);
  }

  lemma WholeOrLess<T>(q: seq<T>)
    ensures q[..|q| % U32] == q <==> |q| < U32
  {
  }

  lemma UnpackedIs(buf: seq<byte>, count: nat, bits: nat)
    requires |buf| >= KEYS_HDR_LEN && Opened(buf, 7) == Ok(count) && Bits(buf) == bits
    ensures Unpacked(buf) == Records(buf, KEYS_HDR_LEN, count, KeyBytes(bits))
  {
  }

  /** A buffer that announces `n` records of `k` bytes of material and holds these. */
  ghost predicate Announces(buf: seq<byte>, keys: seq<Key>, n: nat, k: nat) {
    n <= |keys| && Uniform(keys, k) && Unpacked(buf) == Records(buf, KEYS_HDR_LEN, n, k)
    && exists h :: |h| == KEYS_HDR_LEN && buf == h + Body(keys)
  }

  lemma UnpackedFirst(buf: seq<byte>, keys: seq<Key>, n: nat, k: nat)
    requires Announces(buf, keys, n, k)
    ensures Unpacked(buf) == Ok(keys[..n])
    ensures Unpacked(buf) == Ok(keys) <==> n == |keys|
  {
    var h :| |h| == KEYS_HDR_LEN && buf == h + Body(keys);
    RecordsFirst(h, keys, n, k);
    if n == |keys| { assert keys[..n] == keys; }
  }

  lemma PackedAnnounces(keys: seq<Key>, bits: nat)
    requires bits < U16 && Uniform(keys, KeyBytes(bits))
    ensures Announces(KeysHeader(bits, |keys|) + Body(keys), keys, |keys| % U32, KeyBytes(bits))
  {
    HeaderOpens(bits, |keys|, Body(keys));
    assert |KeysHeader(bits, |keys|)| == KEYS_HDR_LEN;
  }

  /**
   Unpacking what was packed gives the first `n` keys, where `n` is the number of keys modulo
   2^32: all of them exactly when there are fewer than 2^32.
   */
  lemma KeysRoundTrip(keys: seq<Key>, bits: nat)
    requires bits < U16 && Uniform(keys, KeyBytes(bits))
    ensures Unpacked(KeysHeader(bits, |keys|) + Body(keys)) == Ok(keys[..|keys| % U32])
    ensures Unpacked(KeysHeader(bits, |keys|) + Body(keys)) == Ok(keys) <==> |keys| < U32
  {
    PackedAnnounces(keys, bits);
    UnpackedFirst(KeysHeader(bits, |keys|) + Body(keys), keys, |keys| % U32, KeyBytes(bits));
    Below(|keys|);
  }

  lemma Below(n: nat)
    ensures n % U32 == n <==> n < U32
  {
  }

  lemma HeaderOpens(bits: nat, count: nat, body: seq<byte>)
    requires bits < U16
    ensures var buf := KeysHeader(bits, count) + body; Unpacked(buf) == Records(buf, KEYS_HDR_LEN, count % U32, KeyBytes(bits))
  {
    HeaderReads(bits, count, body);
    UnpackedIs(KeysHeader(bits, count) + body, count % U32, bits);
  }

  lemma HeaderReads(bits: nat, count: nat, body: seq<byte>)
    requires bits < U16
    ensures var buf := KeysHeader(bits, count) + body;
            |buf| >= KEYS_HDR_LEN && Opened(buf, 7) == Ok(count % U32) && Bits(buf) == bits
  {
    var buf := KeysHeader(bits, count) + body;
    assert buf[..4] == MAGIC && buf[4] == VERSION;
    assert buf[5..7] == LittleEndian(bits, WIDTHS[0]) && buf[7..11] == LittleEndian(count, WIDTHS[1]);
    CountWraps(count);
    assert Pow256(2) == 65536;
    LittleEndianRoundTrip(bits, 2);
  }

  lemma HeaderWrites(buf: seq<byte>)
    requires |buf| >= KEYS_HDR_LEN && buf[..4] == MAGIC && buf[4] == VERSION
    ensures KeysHeader(Bits(buf), FromLittleEndian(buf[7..11])) == buf[..11]
  {
    LittleEndianOnto(buf[5..7]);
    LittleEndianOnto(buf[7..11]);
    assert buf[..11] == buf[..4] + [buf[4]] + buf[5..7] + buf[7..11];
  }

  lemma RecordsRepack(buf: seq<byte>, h: seq<byte>, count: nat, k: nat)
    requires h <= buf && Records(buf, |h|, count, k).Ok?
    ensures var keys := Records(buf, |h|, count, k).value; |keys| == count && Uniform(keys, k) && h + Body(keys) <= buf
  {
    BodyOfCut(buf, |h|, count, k);
    CutUniform(buf, |h|, count, k);
    var n := |h| + Span(count, k);
    assert buf[..n] == buf[..|h|] + buf[|h|..n];
  }

  /** Whatever is accepted packs again to the front of the input. */
  lemma KeysRepack(buf: seq<byte>)
    requires Unpacked(buf).Ok?
    ensures var keys := Unpacked(buf).value;
            Uniform(keys, KeyBytes(Bits(buf))) && KeysHeader(Bits(buf), |keys|) + Body(keys) <= buf
  {
    HeaderWrites(buf);
    RecordsRepack(buf, buf[..11], FromLittleEndian(buf[7..11]), KeyBytes(Bits(buf)));
  }

  /** The same for lists of ids. */
  lemma IdsRoundTrip(ids: seq<seq<byte>>)
    requires forall i :: 0 <= i < |ids| ==> |ids[i]| == 16
    ensures var keys := WithoutMaterial(ids);
            && UnpackedIds(IdsHeader(|ids|) + Body(keys)) == Ok(keys[..|ids| % U32])
            && (UnpackedIds(IdsHeader(|ids|) + Body(keys)) == Ok(keys) <==> |ids| < U32)
  {
    var keys := WithoutMaterial(ids);
    IdsHeaderReads(|ids|, Body(keys));
    RecordsFirst(IdsHeader(|ids|), keys, |ids| % U32, 0);
    WholeOrLess(keys);
  }

  lemma IdsHeaderReads(count: nat, body: seq<byte>)
    ensures var buf := IdsHeader(count) + body; |buf| >= IDS_HDR_LEN && Opened(buf, 5) == Ok(count % U32)
  {
    var buf := IdsHeader(count) + body;
    assert buf[..4] == MAGIC && buf[4] == VERSION && buf[5..9] == LittleEndian(count, WIDTHS[1]);
    CountWraps(count);
  }

  lemma IdsRepack(buf: seq<byte>)
    requires UnpackedIds(buf).Ok?
    ensures var keys := UnpackedIds(buf).value; Uniform(keys, 0) && IdsHeader(|keys|) + Body(keys) <= buf
  {
    LittleEndianOnto(buf[5..9]);
    assert buf[..9] == buf[..4] + [buf[4]] + buf[5..9];
    RecordsRepack(buf, buf[..9], FromLittleEndian(buf[5..9]), 0);
  }
}
