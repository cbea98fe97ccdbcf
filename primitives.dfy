/** The cryptographic library calls the key handling is built from. They
    are not modelled: each is a function-valued field of `Library`, so a
    result about the key handling holds for every implementation of them,
    and what a proof needs of a library is a named hypothesis below. */
module Primitives {
  import opened Bytes
  import opened Wrappers

  /** A Kyber768 key pair, `[publicKey, privateKey]` of `generateKeyPair`. */
  datatype KeyPair = KeyPair(publicKey: seq<byte>, privateKey: seq<byte>)

  /** The `[ct, ss]` pair of a Kyber768 `encap`. */
  datatype Encapsulation = Encapsulation(ct: seq<byte>, sharedSecret: seq<byte>)

  datatype Library = Library(
    /** `new TextEncoder().encode(text)` and `aesjs.utils.utf8.toBytes(text)`. */
    textToBytes: string -> seq<byte>,
    /** `aesjs.utils.utf8.toBytes` applied to a binary shared secret. */
    secretToBytes: seq<byte> -> seq<byte>,
    /** `scrypt.scrypt(password, salt, N, r, p, dkLen)` (RFC 7914). */
    scrypt: (seq<byte>, seq<byte>, nat, nat, nat, nat) -> seq<byte>,
    /** Kyber768 `encap(publicKey)`; its randomness is the second argument. */
    encap: (seq<byte>, seq<byte>) -> Encapsulation,
    /** Kyber768 `decap(ct, privateKey)`. */
    decap: (seq<byte>, seq<byte>) -> seq<byte>,
    /** `new aesjs.ModeOfOperation.cbc(key, iv).encrypt(data)`; None when the
        library throws. */
    cbcEncrypt: (seq<byte>, seq<byte>, seq<byte>) -> Option<seq<byte>>
  )

  /** scrypt returns dkLen bytes (RFC 7914). */
  ghost predicate ScryptKeepsLength(lib: Library) {
    forall pw, salt, n, r, p, len :: |lib.scrypt(pw, salt, n, r, p, len)| == len
  }

  /** aes-js CBC: it accepts a 16-, 24- or 32-byte key, a 16-byte IV and
      block-aligned data, and then returns as many bytes as it was given. */
  ghost predicate CbcLikeAesJs(lib: Library) {
    forall key, iv, data ::
      var c := lib.cbcEncrypt(key, iv, data);
      && (c.Some? <==> (|key| == 16 || |key| == 24 || |key| == 32) && |iv| == 16 && |data| % 16 == 0)
      && (c.Some? ==> |c.value| == |data|)
  }
}
