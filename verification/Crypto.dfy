/** The cryptographic primitives as total functions, and the few laws the protocol relies on. */
module Crypto {
  import opened Common

  datatype Primitives = Primitives(
    sha256: Binary -> Bytes32,
    hmacSha256: (Binary, Binary) -> Bytes32,
    hmacSha512: (Binary, Binary) -> Bytes64,
    cbcEncrypt: (Binary, Bytes32, Bytes16) -> Binary,
    cbcDecrypt: (Binary, Bytes32, Bytes16) -> Binary,
    publicKey: Bytes32 -> Bytes32,
    sign: (Bytes32, Binary) -> Bytes64,
    verify: (Bytes32, Binary, Bytes64) -> bool,
    sharedSecret: (Bytes32, Bytes32) -> Bytes32)

  /** Section 5.1 of RFC 8032: a signature made with a private key verifies under its public key. */
  ghost predicate SignaturesVerify(p: Primitives) {
    forall k, m :: p.verify(p.publicKey(k), m, p.sign(k, m))
  }

  /** Section 6.2 of NIST SP 800-38A: CBC decryption inverts encryption on whole blocks, keeping the length. */
  ghost predicate CbcInverts(p: Primitives) {
    forall d, k, iv :: |d| % 16 == 0 ==>
      |p.cbcEncrypt(d, k, iv)| == |d| && p.cbcDecrypt(p.cbcEncrypt(d, k, iv), k, iv) == d
  }

  /** Section 6.1 of RFC 7748: both sides of a Diffie-Hellman exchange get the same secret. */
  ghost predicate SecretsAgree(p: Primitives) {
    forall a, b :: p.sharedSecret(a, p.publicKey(b)) == p.sharedSecret(b, p.publicKey(a))
  }

  ghost predicate Ideal(p: Primitives) {
    SignaturesVerify(p) && CbcInverts(p) && SecretsAgree(p)
  }

  /** A pair of different inputs with one digest. */
  ghost predicate Collision(p: Primitives, x: Binary, y: Binary) {
    x != y && p.sha256(x) == p.sha256(y)
  }

  /** The laws are consistent: some primitives satisfy all of them. */
  lemma LawsAreConsistent()
    ensures exists p :: Ideal(p)
  {
    var p := Primitives(
      _ => Zeros(32), (_, _) => Zeros(32), (_, _) => Zeros(64),
      (d, _, _) => d, (d, _, _) => d,
      k => k, (_, _) => Zeros(64), (_, _, _) => true, (_, _) => Zeros(32));
    assert Ideal(p);
  }
}
