/** The cryptography the program calls, as function values. Nothing is known of
    them beyond the laws a lemma asks for. */
module Crypto {
  import opened Prelude

  type SigningKey = Bytes
  type PublicKey = Bytes

  datatype Crypto = Crypto(
    sha256: Bytes -> Bytes,
    mac: (Bytes, Bytes) -> Bytes,
    sign: (SigningKey, Bytes) -> Bytes,
    verify: (PublicKey, Bytes, Bytes) -> bool,
    publicOf: SigningKey -> PublicKey,
    publicPem: PublicKey -> string,
    parsePublicPem: string -> Option<PublicKey>,
    privatePem: SigningKey -> string,
    parsePrivatePem: string -> Option<SigningKey>,
    fingerprint: PublicKey -> string,
    kdfAccepts: (int, int, int) -> bool,
    kdf: (string, Bytes, int, int, int) -> Bytes,
    encrypt: (Bytes, Bytes, Bytes) -> Bytes,
    decrypt: (Bytes, Bytes, Bytes) -> Option<Bytes>)

  /** Signatures verify, and keys survive their PEM form. */
  ghost predicate LawfulKeys(c: Crypto) {
    && (forall sk, m :: c.verify(c.publicOf(sk), m, c.sign(sk, m)))
    && (forall pk :: c.parsePublicPem(c.publicPem(pk)) == Some(pk))
    && (forall sk :: c.parsePrivatePem(c.privatePem(sk)) == Some(sk))
  }

  /** Passphrases do not share derived keys; decryption undoes encryption and
      accepts a ciphertext under one key only. */
  ghost predicate IdealCipher(c: Crypto) {
    && (forall p, q, salt, n, r, w :: c.kdf(p, salt, n, r, w) == c.kdf(q, salt, n, r, w) ==> p == q)
    && (forall k, n, m :: c.decrypt(k, n, c.encrypt(k, n, m)) == Some(m))
    && (forall k, l, n, ct :: c.decrypt(k, n, ct).Some? && c.decrypt(l, n, ct).Some? ==> k == l)
  }

  /** Structural failures, as opposed to a measured mismatch. */
  datatype SealError =
    | Malformed
    | UnsupportedSchemaV3
    | InvalidPreimage
    | MissingPublicKey
    | KeyError
    | Decrypt
    | C2pa
    | Tsa
    | Rekor
}
