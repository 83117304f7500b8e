/**
 Cryptography as free terms.

 - Key encapsulation (section 7 of FIPS 203): decapsulation inverts encapsulation; with
   another key pair it yields an unrelated secret instead of an error (implicit rejection).
 - Authenticated encryption (section 7 of NIST SP 800-38D): opening succeeds only on what
   was sealed under the same key, nonce and additional data.
 - HKDF (section 2 of RFC 5869) and digests are injective.
 */
module Symbolic {
  import opened Wrappers
  import opened Bytes

  /** The encapsulation made with random `coin` against the public key of pair `key`. */
  datatype KemCiphertext = KemCiphertext(key: nat, coin: nat)

  /** A 32-byte shared secret. */
  datatype Secret =
    | Shared(key: nat, coin: nat)
    | Rejected(sk: nat, ct: KemCiphertext)

  function Encap(pk: nat, coin: nat): (KemCiphertext, Secret) {
    (KemCiphertext(pk, coin), Shared(pk, coin))
  }

  function Decap(sk: nat, ct: KemCiphertext): Secret {
    if sk == ct.key then Shared(ct.key, ct.coin) else Rejected(sk, ct)
  }

  /** HKDF output for a salt, an input secret and an info string. */
  datatype Okm = Okm(salt: Text, ikm: Secret, info: seq<byte>)

  datatype Nonce = Derived(okm: Okm) | Fixed(bytes: seq<byte>)

  /** The detached ciphertext: as long as the plaintext. */
  datatype Cipher<P> = Cipher(key: Okm, nonce: Nonce, plain: P)

  /** The authentication tag. `Forged` stands for tags no holder of a key computed. */
  datatype Tag<P, A> = Tag(key: Okm, nonce: Nonce, aad: A, plain: P) | Forged(seed: nat)

  function SealDetached<P, A>(key: Okm, nonce: Nonce, plain: P, aad: A): (Cipher<P>, Tag<P, A>) {
    (Cipher(key, nonce, plain), Tag(key, nonce, aad, plain))
  }

  function OpenDetached<P(==), A(==)>(key: Okm, nonce: Nonce, ct: Cipher<P>, tag: Tag<P, A>, aad: A): Option<P> {
    if ct.key == key && ct.nonce == nonce && tag == Tag(key, nonce, aad, ct.plain) then Some(ct.plain) else None
  }
}
