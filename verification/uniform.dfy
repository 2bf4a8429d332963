/**
  The hash-to-uniform primitive behind per-user evaluation: hash a byte
  string to a 32-byte digest, read its first eight bytes as a little-endian
  uint64 `n`, and normalise to `n / (2^64 - 1)`.

  SHA-256 is a library call whose internals are not part of this model: it
  is a parameter `sha256` of type `Hash`, any total function returning 32
  bytes, so every property below holds for whichever digest is plugged in.
  The division is exact real division; float64 rounding is not modelled.
 */
module Uniform {
  import opened LittleEndian

  /** A SHA-256 digest: exactly 32 bytes. */
  type Digest = s: seq<byte> | |s| == 32 witness seq(32, i => 0 as byte)

  /** A 256-bit digest function. */
  type Hash = seq<byte> -> Digest

  /** The normalised value of a digest: its little-endian uint64 prefix
      divided by 2^64 - 1. */
  function FromDigest(d: Digest): (u: real)
    ensures 0.0 <= u <= 1.0
  {
    Uint64(d) as real / Uint64Max as real
  }

  /** `toUniformFloat64(str)`: the normalised value of the digest of `str`. */
  function ToUniformFloat64(sha256: Hash, str: seq<byte>): (u: real)
    ensures 0.0 <= u <= 1.0
  {
    FromDigest(sha256(str))
  }

  /** The normalisation is strictly increasing in the decoded prefix, so it
      preserves the order of the digests' uint64 prefixes in both directions. */
  lemma FromDigestOrder(d1: Digest, d2: Digest)
    ensures FromDigest(d1) <= FromDigest(d2) <==> Uint64(d1) <= Uint64(d2)
    ensures FromDigest(d1) < FromDigest(d2) <==> Uint64(d1) < Uint64(d2)
  {
  }

  /** Digest bytes 8..31 have no effect: two digests normalise to the same
      value exactly when their first eight bytes agree. */
  lemma FromDigestReadsPrefix(d1: Digest, d2: Digest)
    ensures FromDigest(d1) == FromDigest(d2) <==> d1[..8] == d2[..8]
  {
    FromDigestOrder(d1, d2);
    Uint64Prefix(d1, d2);
  }

  /** The value 0 is reached exactly by digests whose first eight bytes are
      zero. */
  lemma FromDigestZero(d: Digest)
    ensures FromDigest(d) == 0.0 <==> forall i :: 0 <= i < 8 ==> d[i] == 0
  {
    Uint64Zero(d);
  }

  /** The value 1 is reached exactly by digests whose first eight bytes are
      all 0xFF, so the range is the closed interval [0, 1]. */
  lemma FromDigestOne(d: Digest)
    ensures FromDigest(d) == 1.0 <==> forall i :: 0 <= i < 8 ==> d[i] == 0xFF
  {
    Uint64AllOnes(d);
  }

  /** Both ends of [0, 1] are the value of some digest. */
  lemma FromDigestEndpoints()
    ensures FromDigest(seq(32, i => 0 as byte)) == 0.0
    ensures FromDigest(seq(32, i => 0xFF as byte)) == 1.0
  {
    FromDigestZero(seq(32, i => 0 as byte));
    FromDigestOne(seq(32, i => 0xFF as byte));
  }
}
