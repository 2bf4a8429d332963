/**
  Little-endian decoding of unsigned integers from bytes, as Go's
  `binary.LittleEndian.Uint64` performs it: byte `i` carries weight `256^i`.
 */
module LittleEndian {

  newtype byte = b: int | 0 <= b < 256

  /** 2^64 - 1, the largest value of Go's uint64. */
  const Uint64Max: nat := 0xFFFF_FFFF_FFFF_FFFF

  function Pow256(k: nat): (p: nat)
    ensures p >= 1
  {
    if k == 0 then 1 else 256 * Pow256(k - 1)
  }

  /** The unsigned value of `s` read least significant byte first. */
  function FromLE(s: seq<byte>): (n: nat)
    ensures n < Pow256(|s|)
  {
    if |s| == 0 then 0 else s[0] as nat + 256 * FromLE(s[1..])
  }

  /** The `k`-byte little-endian encoding of `n`, the inverse of `FromLE`. */
  function ToLE(n: nat, k: nat): (s: seq<byte>)
    requires n < Pow256(k)
    ensures |s| == k
  {
    if k == 0 then [] else [(n % 256) as byte] + ToLE(n / 256, k - 1)
  }

  /** Reference reading: the sum over positions `i` of `s[i] * 256^i`,
      accumulated from the most significant end. */
  function Positional(s: seq<byte>): nat {
    if |s| == 0 then 0
    else Positional(s[..|s| - 1]) + s[|s| - 1] as nat * Pow256(|s| - 1)
  }

  /** Go's `binary.LittleEndian.Uint64(b)`: reads bytes 0..7 of `b`
      (Go panics when `b` is shorter than 8 bytes). */
  function Uint64(b: seq<byte>): (n: nat)
    requires |b| >= 8
    ensures n <= Uint64Max
  {
    assert Pow256(8) == Uint64Max + 1;
    FromLE(b[..8])
  }

  lemma {:induction false} DecodeEncode(n: nat, k: nat)
    requires n < Pow256(k)
    ensures FromLE(ToLE(n, k)) == n
  {
    if k > 0 {
      DecodeEncode(n / 256, k - 1);
      assert ToLE(n, k)[1..] == ToLE(n / 256, k - 1);
    }
  }

  lemma {:induction false} EncodeDecode(s: seq<byte>)
    ensures ToLE(FromLE(s), |s|) == s
  {
    if |s| > 0 {
      var rest := FromLE(s[1..]);
      assert (s[0] as nat + 256 * rest) % 256 == s[0] as nat;
      assert (s[0] as nat + 256 * rest) / 256 == rest;
      EncodeDecode(s[1..]);
    }
  }

  /** Two byte strings of the same length decode to the same number
      exactly when they are equal. */
  lemma FromLEInjective(a: seq<byte>, b: seq<byte>)
    requires |a| == |b|
    ensures FromLE(a) == FromLE(b) <==> a == b
  {
    if FromLE(a) == FromLE(b) {
      EncodeDecode(a);
      EncodeDecode(b);
    }
  }

  lemma {:induction false} FromLEAppend(s: seq<byte>, b: byte)
    ensures FromLE(s + [b]) == FromLE(s) + b as nat * Pow256(|s|)
  {
    if |s| > 0 {
      assert (s + [b])[1..] == s[1..] + [b];
      FromLEAppend(s[1..], b);
      var rest := FromLE(s[1..]);
      var p := Pow256(|s| - 1);
      var w := b as nat * p;
      assert FromLE(s[1..] + [b]) == rest + w;
      assert FromLE(s + [b]) == s[0] as nat + 256 * (rest + w);
      assert b as nat * Pow256(|s|) == 256 * w;
    }
  }

  /** Byte `i` of the input carries weight `256^i`. */
  lemma {:induction false} FromLEIsPositional(s: seq<byte>)
    ensures FromLE(s) == Positional(s)
  {
    if |s| > 0 {
      var init := s[..|s| - 1];
      assert s == init + [s[|s| - 1]];
      FromLEAppend(init, s[|s| - 1]);
      FromLEIsPositional(init);
    }
  }

  /** The value is zero exactly when every byte is zero. */
  lemma {:induction false} FromLEZero(s: seq<byte>)
    ensures FromLE(s) == 0 <==> forall i :: 0 <= i < |s| ==> s[i] == 0
  {
    if |s| > 0 {
      FromLEZero(s[1..]);
      assert forall i :: 1 <= i < |s| ==> s[i] == s[1..][i - 1];
    }
  }

  /** The value is the largest `|s|`-byte value exactly when every byte
      is 0xFF. */
  lemma {:induction false} FromLEMax(s: seq<byte>)
    ensures FromLE(s) == Pow256(|s|) - 1 <==> forall i :: 0 <= i < |s| ==> s[i] == 0xFF
  {
    if |s| > 0 {
      FromLEMax(s[1..]);
      assert forall i :: 1 <= i < |s| ==> s[i] == s[1..][i - 1];
      var rest := FromLE(s[1..]);
      var p := Pow256(|s| - 1);
      if FromLE(s) == Pow256(|s|) - 1 {
        // s[0] + 256 * rest == 256 * p - 1 with s[0] <= 255 and rest <= p - 1
        // forces s[0] == 255 and rest == p - 1.
        assert s[0] as nat + 256 * rest == 256 * p - 1;
        assert s[0] == 0xFF;
      }
    }
  }

  /** `Uint64` written out term by term, as Go's implementation ORs
      `b[i] << (8*i)` together. */
  lemma Uint64Expanded(b: seq<byte>)
    requires |b| >= 8
    ensures Uint64(b) ==
              b[0] as nat
            + b[1] as nat * 0x100
            + b[2] as nat * 0x1_0000
            + b[3] as nat * 0x100_0000
            + b[4] as nat * 0x1_0000_0000
            + b[5] as nat * 0x100_0000_0000
            + b[6] as nat * 0x1_0000_0000_0000
            + b[7] as nat * 0x100_0000_0000_0000
  {
    forall i | 0 <= i < 8
      ensures FromLE(b[i..8]) == b[i] as nat + 256 * FromLE(b[i + 1..8])
    {
      assert b[i..8][1..] == b[i + 1..8];
    }
    assert b[..8] == b[0..8];
    assert FromLE(b[8..8]) == 0;
  }

  /** `Uint64` reads bytes 0..7 and nothing else: two inputs give the same
      number exactly when their first eight bytes agree. */
  lemma Uint64Prefix(a: seq<byte>, b: seq<byte>)
    requires |a| >= 8 && |b| >= 8
    ensures Uint64(a) == Uint64(b) <==> a[..8] == b[..8]
  {
    FromLEInjective(a[..8], b[..8]);
  }

  /** `Uint64` is 0 exactly when bytes 0..7 are all zero. */
  lemma Uint64Zero(b: seq<byte>)
    requires |b| >= 8
    ensures Uint64(b) == 0 <==> forall i :: 0 <= i < 8 ==> b[i] == 0
  {
    FromLEZero(b[..8]);
    assert forall i :: 0 <= i < 8 ==> b[..8][i] == b[i];
  }

  /** `Uint64` is 2^64 - 1 exactly when bytes 0..7 are all 0xFF. */
  lemma Uint64AllOnes(b: seq<byte>)
    requires |b| >= 8
    ensures Uint64(b) == Uint64Max <==> forall i :: 0 <= i < 8 ==> b[i] == 0xFF
  {
    assert Pow256(8) == Uint64Max + 1;
    FromLEMax(b[..8]);
    assert forall i :: 0 <= i < 8 ==> b[..8][i] == b[i];
  }
}
