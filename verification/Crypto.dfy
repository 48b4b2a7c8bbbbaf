/**
 * The cryptographic library as a record of functions. Randomness is an explicit argument.
 * `Lawful` lists everything the proofs use about it.
 */
module CryptoLib {
  import opened Prelude

  type Sha256Sum = h: Bytes | |h| == 32 witness seq(32, _ => 0)

  datatype Crypto = Crypto(
    publicKeyOf: Bytes -> Option<Bytes>,             // private key PEM to public key PEM
    pemToBytes: Bytes -> Option<Bytes>,              // public key PEM to raw key bytes
    bytesToPem: Bytes -> Option<Bytes>,              // raw key bytes to public key PEM
    encrypt: (Bytes, Bytes) -> Option<Bytes>,        // private key PEM, randomness
    decrypt: Bytes -> Option<Bytes>,
    sha256: Bytes -> Sha256Sum,
    sign: (Bytes, Sha256Sum, Bytes) -> Option<Bytes>, // private key PEM, hash, randomness
    verify: (Bytes, Sha256Sum, Bytes) -> bool,        // raw public key bytes, hash, signature
    certKey: Bytes -> Option<Bytes>                   // raw X.509 certificate to public key PEM
  )

  /** `pub` is the raw public key that belongs to the private key PEM `priv`. */
  ghost predicate KeyPair(c: Crypto, priv: Bytes, pub: Bytes)
  {
    c.publicKeyOf(priv).Some? && c.pemToBytes(c.publicKeyOf(priv).value) == Some(pub)
  }

  ghost predicate Lawful(c: Crypto)
  {
    && (forall priv, pub, h, r :: KeyPair(c, priv, pub) && c.sign(priv, h, r).Some? ==>
          c.verify(pub, h, c.sign(priv, h, r).value) && |c.sign(priv, h, r).value| < TWO64)
    && (forall k, r :: c.encrypt(k, r).Some? ==> c.decrypt(c.encrypt(k, r).value) == Some(k))
    && (forall priv, pub :: KeyPair(c, priv, pub) ==> c.bytesToPem(pub) == c.publicKeyOf(priv))
  }

  function Zeros(n: nat): (z: Bytes)
    ensures |z| == n
  {
    if n == 0 then [] else [0] + Zeros(n - 1)
  }

  /** The last 32 bytes, filled up in front. */
  function LastBytes(b: Bytes): Sha256Sum
  {
    if |b| >= 32 then b[|b| - 32..] else Zeros(32 - |b|) + b
  }

  /** A library whose keys are their own PEM; a signature is the hash followed by the key. */
  function ExampleLibrary(): Crypto
  {
    Crypto(k => Some(k), p => Some(p), b => Some(b), (k, r) => Some(k), e => Some(e), LastBytes,
           (k, h, r) => if |k| < 256 then Some(h + k) else None, (p, h, s) => s == h + p, r => Some(r))
  }

  /** The laws can be met by a library that accepts a signature for its own hash and key only. */
  lemma ExampleLibraryIsLawful(k: Bytes, h: Sha256Sum)
    requires |k| < 256
    ensures var c := ExampleLibrary();
            && Lawful(c) && KeyPair(c, k, k) && c.encrypt(k, []).Some? && c.sign(k, h, []).Some?
            && forall pub, h' :: c.verify(pub, h', c.sign(k, h, []).value) <==> pub == k && h' == h
  {
    var signature := h + k;
    forall pub, h': Sha256Sum | signature == h' + pub ensures pub == k && h' == h {
      assert signature[..32] == h && signature[..32] == h';
      assert signature[32..] == k && signature[32..] == pub;
    }
  }
}
