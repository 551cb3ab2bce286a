/**
 The cryptographic primitives, as functions handed to the model. What a theorem needs of them
 is a precondition of that theorem; nothing is assumed globally.
 */
module Crypto {
  import opened Bytes

  datatype Primitives = Primitives(
    derive: (Bytes32, Bytes32) -> Bytes20,      // fingerprint of an Ed25519 and an X25519 public key
    edPublic: Bytes32 -> Bytes32,               // public key of an Ed25519 secret
    xPublic: Bytes32 -> Bytes32,                // public key of an X25519 secret
    sign: (Bytes32, Bytes) -> Bytes64,          // secret, message
    verify: (Bytes32, Bytes, Bytes64) -> bool   // public key, message, signature
  )

  /** A signature made with a secret key verifies under its public key. */
  ghost predicate SignaturesVerify(c: Primitives) {
    forall sk: Bytes32, m: Bytes :: c.verify(c.edPublic(sk), m, c.sign(sk, m))
  }

  datatype IdentityKeys = IdentityKeys(edSecret: Bytes32, xSecret: Bytes32) {
    function EdPublic(c: Primitives): Bytes32 { c.edPublic(edSecret) }
    function XPublic(c: Primitives): Bytes32 { c.xPublic(xSecret) }
    function Fingerprint(c: Primitives): Bytes20 { c.derive(EdPublic(c), XPublic(c)) }
  }

  datatype SecurityError =
    | IdentityBindingFailed
    | Internal
    | ReplayDetected
    | FingerprintMismatch
    | HandshakeFailed
    | MessageTooLarge
    | EncryptionFailed
    | DecryptionFailed
    | InvalidPublicKey
    | InvalidPassphrase
    | Storage
}
