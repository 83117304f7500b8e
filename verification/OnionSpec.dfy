/**
 Onion layers (orr/src/onion.rs): each layer is sealed under a key derived from the master
 secret shared with its hop and a fresh key id, and bound to the clear header fields.
 */
module OnionSpec {
  import opened Wrappers
  import opened Bytes
  import opened Symbolic
  import opened Widths

  /** "orr.onion.v1" */
  const HKDF_SALT: Text := [0x6F, 0x72, 0x72, 0x2E, 0x6F, 0x6E, 0x69, 0x6F, 0x6E, 0x2E, 0x76, 0x31]
  /** "orr.onion.v3" */
  const AAD_V3: Text := [0x6F, 0x72, 0x72, 0x2E, 0x6F, 0x6E, 0x69, 0x6F, 0x6E, 0x2E, 0x76, 0x33]

  /** The digest of the DKMS header that travels beside the payload. */
  datatype HeaderDigest = HeaderDigest(of: seq<byte>)

  /** Authenticated data of a layer: a fixed layout of bytes, then the header digest. */
  datatype LayerAad = LayerAad(fields: seq<byte>, digest: HeaderDigest)

  /** What a layer protects: the body, or the encoding of the next layer. */
  datatype Plain = Body(bytes: seq<byte>) | Encoded(layer: InnerLayer)

  datatype InnerLayer = InnerLayer(next: Text, epoch: nat, keyId: Text, ct: Cipher<Plain>, tag: Tag<Plain, LayerAad>)

  datatype Hop = Hop(id: Text, secret: Secret, epoch: nat)

  /** The clear header fields a layer is bound to. */
  datatype Ctx = Ctx(keyId: Text, epoch: nat, hops: int, session: nat, counter: nat, header: seq<byte>) {
    ghost predicate Valid() {
      && |keyId| == 16 && epoch < U32 && -I32_MAX - 1 <= hops <= I32_MAX && session < U64 && counter < U64
    }
  }

  /** Two's complement, as `i32::to_be_bytes` writes it. */
  function Unsigned(x: int): (n: nat)
    requires -I32_MAX - 1 <= x <= I32_MAX
    ensures n < U32
  {
    if x < 0 then x + U32 else x
  }

  /** The conversion `as i32`. */
  function ToI32(n: nat): (x: int)
    ensures -I32_MAX - 1 <= x <= I32_MAX
    ensures n <= I32_MAX ==> x == n
  {
    var m := n % U32;
    if m > I32_MAX then m - U32 else m
  }

  function AadOf(c: Ctx): LayerAad
    requires -I32_MAX - 1 <= c.hops <= I32_MAX
  {
    LayerAad(AAD_V3 + c.keyId + BigEndian(c.epoch, 4) + BigEndian(Unsigned(c.hops), 4)
             + BigEndian(c.session, 8) + BigEndian(c.counter, 8), HeaderDigest(c.header))
  }

  function LayerKey(secret: Secret, keyId: Text): Okm { Okm(HKDF_SALT, secret, keyId + AAD_V3) }

  function LayerNonce(keyId: Text): Nonce { Fixed(if |keyId| >= 12 then keyId[..12] else keyId) }

  function SealLayer(secret: Secret, c: Ctx, p: Plain): (Cipher<Plain>, Tag<Plain, LayerAad>)
    requires -I32_MAX - 1 <= c.hops <= I32_MAX
  {
    SealDetached(LayerKey(secret, c.keyId), LayerNonce(c.keyId), p, AadOf(c))
  }

  function OpenLayer(secret: Secret, c: Ctx, ct: Cipher<Plain>, tag: Tag<Plain, LayerAad>): Option<Plain>
    requires -I32_MAX - 1 <= c.hops <= I32_MAX
  {
    OpenDetached(LayerKey(secret, c.keyId), LayerNonce(c.keyId), ct, tag, AadOf(c))
  }

  datatype Peeled = Forward(layer: InnerLayer) | Deliver(body: Plain)

  datatype PeelError = BadTag | BadInner

  function Peel(secret: Secret, c: Ctx, ct: Cipher<Plain>, tag: Tag<Plain, LayerAad>): Result<Peeled, PeelError>
    requires -I32_MAX - 1 <= c.hops <= I32_MAX
  {
    match OpenLayer(secret, c, ct, tag)
    case None => Err(BadTag)
    case Some(p) =>
      if c.hops <= 0 then Ok(Deliver(p))
      else if p.Encoded? then Ok(Forward(p.layer)) else Err(BadInner)
  }

  // ---- the layout is uniquely decodable ----

  lemma LastField(a: seq<byte>, x: nat, b: seq<byte>, y: nat, w: nat)
    requires |a| == |b| && x < Pow256(w) && y < Pow256(w) && a + BigEndian(x, w) == b + BigEndian(y, w)
    ensures a == b && x == y
  {
    ConcatSplits(a, BigEndian(x, w), b, BigEndian(y, w));
    BigEndianInjective(x, y, w);
  }

  lemma TwoLastFields(a: seq<byte>, x: nat, x': nat, b: seq<byte>, y: nat, y': nat, w: nat)
    requires |a| == |b| && x < Pow256(w) && y < Pow256(w) && x' < Pow256(w) && y' < Pow256(w)
    requires a + BigEndian(x, w) + BigEndian(x', w) == b + BigEndian(y, w) + BigEndian(y', w)
    ensures a == b && x == y && x' == y'
  {
    LastField(a + BigEndian(x, w), x', b + BigEndian(y, w), y', w);
    LastField(a, x, b, y, w);
  }

  /** Where each field of the authenticated data stands. */
  lemma AadLayout(c: Ctx)
    requires c.Valid()
    ensures var a := AadOf(c); var f := a.fields;
            && |f| == 52 && f[..12] == AAD_V3 && f[12..28] == c.keyId
            && f[28..32] == BigEndian(c.epoch, 4) && f[32..36] == BigEndian(if c.hops < 0 then c.hops + U32 else c.hops, 4)
            && f[36..44] == BigEndian(c.session, 8) && f[44..] == BigEndian(c.counter, 8) && a.digest.of == c.header
  {
  }

  /** Two layers share a key and a nonce only if they share the secret and the key id. */
  lemma KeyAndNonceApart(s: Secret, k: Text, s': Secret, k': Text)
    requires |k| == |k'| == 16
    ensures LayerKey(s, k) == LayerKey(s', k') <==> s == s' && k == k'
    ensures LayerNonce(k) == LayerNonce(k') <==> k[..12] == k'[..12]
  {
    if k + AAD_V3 == k' + AAD_V3 { assert k == (k + AAD_V3)[..16] == (k' + AAD_V3)[..16] == k'; }
  }

  /** Equal authenticated data means equal header fields. */
  lemma AadDetermines(a: Ctx, b: Ctx)
    requires a.Valid() && b.Valid() && AadOf(a) == AadOf(b)
    ensures a == b
  {
    BytesOf();
    var a1, b1 := AAD_V3 + a.keyId, AAD_V3 + b.keyId;
    var a2, b2 := a1 + BigEndian(a.epoch, 4) + BigEndian(Unsigned(a.hops), 4), b1 + BigEndian(b.epoch, 4) + BigEndian(Unsigned(b.hops), 4);
    TwoLastFields(a2, a.session, a.counter, b2, b.session, b.counter, 8);
    TwoLastFields(a1, a.epoch, Unsigned(a.hops), b1, b.epoch, Unsigned(b.hops), 4);
    ConcatSplits(AAD_V3, a.keyId, AAD_V3, b.keyId);
  }

  /**
   A sealed layer opens exactly for the hop and the header fields it was made for, whatever
   ciphertext comes with its tag, and then to what was sealed.
   */
  lemma OpensExactly(secret: Secret, c: Ctx, p: Plain, secret': Secret, c': Ctx, ct: Cipher<Plain>)
    requires c.Valid() && c'.Valid()
    ensures var (sealed, tag) := SealLayer(secret, c, p);
            && (OpenLayer(secret', c', ct, tag).Some? <==> secret' == secret && c' == c && ct == sealed)
            && (OpenLayer(secret', c', ct, tag).Some? ==> OpenLayer(secret', c', ct, tag) == Some(p))
  {
    var (sealed, tag) := SealLayer(secret, c, p);
    if OpenLayer(secret', c', ct, tag).Some? { AadDetermines(c', c); }
  }
}
