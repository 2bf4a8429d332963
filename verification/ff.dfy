/**
  The feature-flag evaluator of package `ff`: a flag is an identifier with a
  probability value; it is switched on either by a random draw or, for a
  given user, by hashing the identifier followed by the user's identifier.

  Go strings are byte strings, so identifiers are `seq<byte>` and
  `fmt.Sprintf("%s%s", id, userID)` is their concatenation. The draw of
  `rand.Float64` is a parameter of `IsEnabled`; the digest function is a
  parameter of `IsEnabledForUser` (see module `Uniform`).
 */
module FeatureFlags {
  import opened Floats
  import opened LittleEndian
  import opened Uniform

  const MinValue: Float64 := Finite(0.0)
  const MaxValue: Float64 := Finite(1.0)

  /** A flag: its identifier and the probability of being enabled. Go's
      struct has exported fields, so any float64 can end up in `value`;
      only the constructor checks it. */
  datatype FeatureFlag = FeatureFlag(id: seq<byte>, value: Float64)

  /** The constructor's one error, carrying the rejected value. */
  datatype FlagError = InvalidValue(got: Float64)

  datatype Result<T> = Ok(value: T) | Err(error: FlagError)

  /** The values the constructor's error message promises to accept:
      a number between 0.0 and 1.0 inclusive. */
  predicate InUnitInterval(v: Float64) {
    v.Finite? && 0.0 <= v.x <= 1.0
  }

  /** `NewFeatureFlag` as written: rejects a value below 0.0 or above 1.0.
      Both comparisons are false for NaN, so NaN is accepted. */
  function NewFeatureFlag(id: seq<byte>, value: Float64): (r: Result<FeatureFlag>)
    ensures r.Ok? <==> InUnitInterval(value) || value.NaN?
    ensures r.Err? <==> value.Inf? || (value.Finite? && (value.x < 0.0 || value.x > 1.0))
    ensures r.Ok? ==> r.value == FeatureFlag(id, value)
    ensures r.Err? ==> r.error == InvalidValue(value)
  {
    if Lt(value, MinValue) || Gt(value, MaxValue) then
      Err(InvalidValue(value))
    else
      Ok(FeatureFlag(id, value))
  }

  /** The constructor with the range check stated positively, so that it
      also rejects NaN: it succeeds exactly on [0.0, 1.0]. */
  function NewCheckedFeatureFlag(id: seq<byte>, value: Float64): (r: Result<FeatureFlag>)
    ensures r.Ok? <==> InUnitInterval(value)
    ensures r.Ok? ==> r.value == FeatureFlag(id, value) && InUnitInterval(r.value.value)
    ensures r.Err? ==> r.error == InvalidValue(value)
  {
    if Le(MinValue, value) && Le(value, MaxValue) then
      Ok(FeatureFlag(id, value))
    else
      Err(InvalidValue(value))
  }

  /** `IsEnabled` with the `rand.Float64` draw passed in: enabled when the
      draw lies below the flag's value. For a value `v` in [0, 1] and a draw
      in [0, 1), the enabling draws are exactly [0, v), an interval of
      length `v`. */
  function IsEnabled(f: FeatureFlag, draw: real): (r: bool)
    ensures f.value.Finite? ==> (r <==> draw < f.value.x)
    ensures f.value.NaN? || f.value == Inf(true) ==> !r
    ensures f.value == Inf(false) ==> r
  {
    Lt(Finite(draw), f.value)
  }

  /** `IsEnabledForUser`: hash the identifier followed directly by the user
      identifier, normalise to [0, 1], and compare with the value. In integer
      terms, a finite value `v` enables the user exactly when the digest's
      little-endian uint64 prefix lies below `v * (2^64 - 1)`. */
  function IsEnabledForUser(sha256: Hash, f: FeatureFlag, userID: seq<byte>): (r: bool)
    ensures r <==> match f.value
                   case Finite(v) => Uint64(sha256(f.id + userID)) as real < v * Uint64Max as real
                   case Inf(negative) => !negative
                   case NaN => false
  {
    Lt(Finite(ToUniformFloat64(sha256, f.id + userID)), f.value)
  }

  // Construction

  /** NaN gets through the range check of `NewFeatureFlag`, and the flag it
      yields is off for every user and every draw. */
  lemma NaNPassesRangeCheck(id: seq<byte>)
    ensures NewFeatureFlag(id, NaN) == Ok(FeatureFlag(id, NaN))
    ensures !InUnitInterval(NaN)
    ensures forall sha256: Hash, userID: seq<byte> ::
              !IsEnabledForUser(sha256, FeatureFlag(id, NaN), userID)
    ensures forall draw: real :: !IsEnabled(FeatureFlag(id, NaN), draw)
  {
  }

  /** The corrected constructor differs from the original on NaN only. */
  lemma CheckedConstructorAgrees(id: seq<byte>, value: Float64)
    ensures NewCheckedFeatureFlag(id, value) == NewFeatureFlag(id, value) <==> !value.NaN?
  {
  }

  // Per-user evaluation

  /** The decision reads the identifier and the user identifier only through
      their concatenation: pairs that concatenate to the same bytes get the
      same answer at the same value. */
  lemma UserDecisionByConcatenation(sha256: Hash, f1: FeatureFlag, user1: seq<byte>,
                                    f2: FeatureFlag, user2: seq<byte>)
    requires f1.id + user1 == f2.id + user2
    requires f1.value == f2.value
    ensures IsEnabledForUser(sha256, f1, user1) == IsEnabledForUser(sha256, f2, user2)
  {
  }

  /** The separator-less concatenation in action: flag "ab" for user "c" and
      flag "a" for user "bc" hash the same bytes "abc". */
  lemma ConcatenationCollision(sha256: Hash, value: Float64)
    ensures IsEnabledForUser(sha256, FeatureFlag([0x61, 0x62], value), [0x63])
         == IsEnabledForUser(sha256, FeatureFlag([0x61], value), [0x62, 0x63])
  {
    var ab: seq<byte>, c: seq<byte> := [0x61, 0x62], [0x63];
    var a: seq<byte>, bc: seq<byte> := [0x61], [0x62, 0x63];
    assert ab + c == a + bc;
  }

  /** The user's point `u` does not depend on the value, so raising the value
      never switches a user off. */
  lemma ThresholdMonotone(sha256: Hash, id: seq<byte>, userID: seq<byte>, v1: Float64, v2: Float64)
    requires Le(v1, v2)
    requires IsEnabledForUser(sha256, FeatureFlag(id, v1), userID)
    ensures IsEnabledForUser(sha256, FeatureFlag(id, v2), userID)
  {
    LtLe(Finite(ToUniformFloat64(sha256, id + userID)), v1, v2);
  }

  /** At value 0.0 no user is enabled, since `u >= 0`. */
  lemma ZeroValueDisablesEveryUser(sha256: Hash, id: seq<byte>, userID: seq<byte>)
    ensures !IsEnabledForUser(sha256, FeatureFlag(id, MinValue), userID)
  {
  }

  /** At value 1.0 a user is enabled unless `u == 1`, that is unless the
      first eight digest bytes are all 0xFF. */
  lemma OneValueEnablesAllButTop(sha256: Hash, id: seq<byte>, userID: seq<byte>)
    ensures IsEnabledForUser(sha256, FeatureFlag(id, MaxValue), userID)
        <==> !(forall i :: 0 <= i < 8 ==> sha256(id + userID)[i] == 0xFF)
  {
    FromDigestOne(sha256(id + userID));
  }

  /** Per-user evaluation is random evaluation with the user's hashed point
      as the draw. */
  lemma UserDecisionIsDrawDecision(sha256: Hash, f: FeatureFlag, userID: seq<byte>)
    ensures IsEnabledForUser(sha256, f, userID) == IsEnabled(f, ToUniformFloat64(sha256, f.id + userID))
  {
  }

  // Random evaluation

  /** A draw from [0, 1) never enables a flag of value 0.0 and always
      enables a flag of value 1.0. */
  lemma DrawBoundaries(id: seq<byte>, draw: real)
    requires 0.0 <= draw < 1.0
    ensures !IsEnabled(FeatureFlag(id, MinValue), draw)
    ensures IsEnabled(FeatureFlag(id, MaxValue), draw)
  {
  }

  /** The enabling draws are closed downwards, and a larger value keeps
      every draw it enabled. */
  lemma DrawMonotone(id: seq<byte>, d1: real, d2: real, v1: Float64, v2: Float64)
    requires d1 <= d2 && Le(v1, v2)
    requires IsEnabled(FeatureFlag(id, v1), d2)
    ensures IsEnabled(FeatureFlag(id, v2), d1)
  {
    LtLe(Finite(d2), v1, v2);
  }
}
