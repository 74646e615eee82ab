/**
 Ideal cryptography. A derived key is the triple it was derived from; a sealed
 blob remembers the key, nonce, associated data and payload it was sealed with,
 and opens only when all of key, nonce and associated data match (the interface
 of section 2 of RFC 5116). Random values are inputs of the operations.
 */
module Aead {
  import opened Prelude
  import Encoding

  const NONCE_LEN: nat := 24

  type Nonce = n: Bytes | |n| == NONCE_LEN witness seq(NONCE_LEN, _ => 0)

  datatype KdfParams = KdfParams(m: nat, t: nat, p: nat)

  const STRONG := KdfParams(256 * 1024, 4, 1)

  datatype Key =
    | Derived(passphrase: Bytes, salt: Bytes, params: KdfParams)
    | Random(bytes: Bytes)

  /** A stored blob: plain octets, or a ciphertext with its payload. */
  datatype Blob<P> = Raw(bytes: Bytes) | Sealed(key: Key, nonce: Bytes, aad: Bytes, payload: P)

  /** A SHA-256 digest, identified with what was hashed (`hash_token`). */
  datatype Digest = Sha256(preimage: Bytes)

  /** Argon2's own parameter limits, section 3.1 of RFC 9106. */
  predicate Derivable(passphrase: Bytes, params: KdfParams) {
    && params.t >= 1
    && 1 <= params.p < 0x100_0000
    && 8 * params.p <= params.m
    && |passphrase| < Encoding.TWO_32
  }

  /** `derive_key`. */
  function DeriveKey(passphrase: Bytes, salt: Bytes, params: KdfParams): Option<Key> {
    if Derivable(passphrase, params) then Some(Derived(passphrase, salt, params)) else None
  }

  /** `encrypt` with the nonce the random source produced. */
  function Encrypt<P>(key: Key, nonce: Nonce, payload: P, aad: Bytes): Blob<P> {
    Sealed(key, nonce, aad, payload)
  }

  /** `decrypt`. */
  function Decrypt<P>(key: Key, nonce: Bytes, ct: Blob<P>, aad: Bytes): Option<P> {
    if |nonce| == NONCE_LEN && ct.Sealed? && ct.key == key && ct.nonce == nonce && ct.aad == aad
    then Some(ct.payload)
    else None
  }
}
