# Feature-flag evaluator (package `ff`), modelled in Dafny

Package `ff` evaluates probabilistic feature flags. A `FeatureFlag` holds an
identifier `ID` and a probability `Value`. `NewFeatureFlag` builds a flag and
returns an error when the value is out of range. `IsEnabled` turns the flag on
when a random draw from [0, 1) is below `Value`. `IsEnabledForUser` is the
deterministic variant. It hashes `ID` followed directly by the user
identifier with SHA-256 and reads the first eight digest bytes as a
little-endian uint64 `n`. It normalises this to `u = n / (2^64 - 1)` and
turns the flag on when `u < Value`.

The model has four modules, one file each:

- `Floats` (`floats.dfy`) models Go's float64 as `Finite(real) | Inf | NaN`,
  with Go's `<`, `>` and `<=` as the predicates `Lt`, `Gt` and `Le`. Every
  comparison with NaN is false. Lemma `LtOrder` is their specification:
  finite values compare as reals, -Inf is least, +Inf is greatest, `<` is a
  strict total order on non-NaN values, and NaN is unordered. `LtLe` chains them.
- `LittleEndian` (`little_endian.dfy`) models `binary.LittleEndian.Uint64`
  as the little-endian reading `FromLE` of bytes 0..7. It comes with the
  inverse encoder `ToLE` and a positional reference definition.
- `Uniform` (`uniform.dfy`) models `toUniformFloat64`. SHA-256 is a
  parameter `sha256: seq<byte> -> Digest`, where a digest is 32 bytes, so
  every property holds for any 32-byte digest function.
- `FeatureFlags` (`ff.dfy`) models the flag, the constructor, `IsEnabled`
  with the draw passed in, and `IsEnabledForUser`.

Go strings are byte strings. Identifiers are therefore `seq<byte>`, and
`fmt.Sprintf("%s%s", ID, userID)` is sequence concatenation. Dafny functions
are pure, so "the same flag and user always give the same answer" holds by
construction. The lemmas state the stronger facts: the decision depends
only on the concatenated bytes and the value, and it is monotone in the value.

Two points where the model's account differs from a first reading of the code:

- The comment at ff.go:59-61 presents the hashed value as a uniform
  number, but the range is closed. In exact arithmetic, `n / (2^64 - 1)`
  reaches 1 only for the all-0xFF prefix. In float64 it reaches 1.0 for
  every `n >= 2^64 - 1024` (see Left out). The model uses exact division
  and proves the closed range [0, 1].
- The error text at ff.go:39 says the value must be "between 0.0 and 1.0
  inclusive". The check at ff.go:38 still lets NaN through (see Findings).

## Model

| member | source | states |
|---|---|---|
| Floats.LtOrder | ff.go:38 | Go's float `<` compares finite values as reals, puts -Inf below and +Inf above every finite value, is a strict total order on non-NaN values; NaN is neither below, above, nor `<=` any value |
| Floats.LtLe | ff.go:48 | `a < b` and `b <= c` give `a < c`, the step behind raising a flag's value |
| LittleEndian.FromLE | ff.go:66 | reading `k` bytes little-endian yields a number below `256^k` |
| LittleEndian.Uint64 | ff.go:66 | the uint64 read from bytes 0..7 lies in [0, 2^64 - 1] |
| LittleEndian.DecodeEncode | ff.go:66 | decoding the `k`-byte little-endian encoding of `n < 256^k` gives back `n` |
| LittleEndian.EncodeDecode | ff.go:66 | re-encoding a decoded byte string gives back the same bytes, so the decode is a bijection |
| LittleEndian.FromLEInjective | ff.go:66 | two byte strings of equal length decode to the same number exactly when they are equal |
| LittleEndian.FromLEAppend | ff.go:66 | appending a byte `b` at position `k` adds `b * 256^k` |
| LittleEndian.FromLEIsPositional | ff.go:66 | the decode equals the sum of `s[i] * 256^i` over all positions `i` |
| LittleEndian.FromLEZero | ff.go:66 | the decoded value is 0 exactly when every byte is 0 |
| LittleEndian.FromLEMax | ff.go:66 | the decoded value is `256^k - 1` exactly when every byte is 0xFF |
| LittleEndian.Uint64Expanded | ff.go:66 | the uint64 is `b[0] + b[1]*2^8 + ... + b[7]*2^56` |
| LittleEndian.Uint64Prefix | ff.go:66 | two inputs give the same uint64 exactly when their first eight bytes agree; later bytes have no effect |
| LittleEndian.Uint64Zero | ff.go:66 | the uint64 is 0 exactly when bytes 0..7 are zero |
| LittleEndian.Uint64AllOnes | ff.go:66 | the uint64 is 2^64 - 1 exactly when bytes 0..7 are 0xFF |
| Uniform.FromDigest | ff.go:66 | `n / (2^64 - 1)` lies in the closed interval [0, 1] |
| Uniform.ToUniformFloat64 | ff.go:62-67 | the normalised digest of any byte string lies in [0, 1], for any 32-byte digest function |
| Uniform.FromDigestOrder | ff.go:66 | under exact division, normalisation preserves and reflects the order of the uint64 prefixes, both `<=` and `<` |
| Uniform.FromDigestReadsPrefix | ff.go:66 | under exact division, two digests normalise to the same value exactly when their first eight bytes agree |
| Uniform.FromDigestZero | ff.go:66 | `u = 0` exactly when digest bytes 0..7 are zero |
| Uniform.FromDigestOne | ff.go:66 | under exact division, `u = 1` exactly when digest bytes 0..7 are all 0xFF |
| Uniform.FromDigestEndpoints | ff.go:66 | both ends 0 and 1 of the range are reached by some digest |
| FeatureFlags.NewFeatureFlag | ff.go:37-42 | succeeds exactly on [0, 1] or NaN; on success the flag holds `id` and `value` unchanged; otherwise the error carries the rejected value |
| FeatureFlags.NewCheckedFeatureFlag | ff.go:38-41 | succeeds exactly when the value is a number in [0, 1], with the same flag and error as the original |
| FeatureFlags.IsEnabled | ff.go:44-49 | for a finite value `v`, enabled exactly when the draw is below `v`; never for NaN or -Inf, always for +Inf |
| FeatureFlags.IsEnabledForUser | ff.go:51-57 | under exact division, for a finite value `v`, enabled exactly when the little-endian uint64 prefix of `sha256(ID ++ userID)` is below `v * (2^64 - 1)`; never for NaN or -Inf, always for +Inf |
| FeatureFlags.NaNPassesRangeCheck | ff.go:38-41 | `NewFeatureFlag(id, NaN)` returns a flag whose value is outside [0, 1], and that flag is off for every user and every draw |
| FeatureFlags.CheckedConstructorAgrees | ff.go:38 | the corrected constructor returns the same result as the original exactly when the value is not NaN |
| FeatureFlags.UserDecisionByConcatenation | ff.go:56 | flags and users whose `ID ++ userID` are the same bytes get the same decision at the same value |
| FeatureFlags.ConcatenationCollision | ff.go:56 | flag "ab" with user "c" and flag "a" with user "bc" get the same decision at any value |
| FeatureFlags.ThresholdMonotone | ff.go:56 | a user enabled at value `v1` stays enabled at every `v2 >= v1` with the same identifier |
| FeatureFlags.ZeroValueDisablesEveryUser | ff.go:56 | at value 0.0 no user is enabled |
| FeatureFlags.OneValueEnablesAllButTop | ff.go:56 | under exact division, at value 1.0 a user is enabled exactly unless digest bytes 0..7 are all 0xFF (`u = 1`) |
| FeatureFlags.UserDecisionIsDrawDecision | ff.go:48-56 | per-user evaluation is random evaluation with `u` as the draw |
| FeatureFlags.DrawBoundaries | ff.go:48 | a draw in [0, 1) never enables value 0.0 and always enables value 1.0 |
| FeatureFlags.DrawMonotone | ff.go:48 | a draw that enables value `v1` enables every lower draw at every value `v2 >= v1` |

## Left out

- `ensureRandIsSeeded` and the `initLock`/`randInit` globals (ff.go:12-15, ff.go:69-84) are left out. They are lazy, lock-guarded, clock-seeded process state and contain no sequential logic.
- `rand.Float64` (ff.go:48) is left out because it is a foreign pseudo-random generator. Its draw is the `draw` parameter of `IsEnabled`.
- SHA-256 internals (ff.go:63-65) are left out because they are a library call. The hash is a parameter returning 32 bytes.
- IsEnabled: says the enabling draws form [0, v) but not that this happens "with probability v". That needs a measure on draws, which the model does not have.
- Float64 rounding in `float64(...)` and the division (ff.go:66) is not modelled: `u` is the exact real `n / (2^64 - 1)`. In float64, `float64((1<<64)-1)` is 2^64, and `float64(n)` rounds to 53 significant bits. By round-to-nearest-even, every `n >= 2^64 - 1024` then gives `u = 1.0`. Prefixes above 2^53 lose their low bits, so distinct prefixes can share one `u`: 2^60 and 2^60 + 1 do. The range [0, 1], `FromDigestZero`, `ZeroValueDisablesEveryUser` and the monotonicity lemmas hold under both readings. The five members below hold for exact division only.
- Uniform.FromDigestOrder: holds for exact division only. In float64, `n1 < n2` can give equal `u` once the prefixes exceed 2^53, so the strict order and its converse are not preserved. Only `n1 <= n2 ==> u1 <= u2` survives.
- Uniform.FromDigestReadsPrefix: holds for exact division only. In float64, digests with different first eight bytes can normalise to the same `u`, as 2^60 and 2^60 + 1 do. Only "same prefix implies same `u`" survives.
- Uniform.FromDigestOne: holds for exact division only. In float64, `u = 1.0` for each of the 1024 prefixes `n >= 2^64 - 1024`, not only for the all-0xFF prefix.
- FeatureFlags.IsEnabledForUser: the integer form `n < v * (2^64 - 1)` holds for exact division only. Go compares `float64(n) / 2^64` with `Value`, so prefixes just below `v * 2^64` can decide differently: at `Value = 0.5` the 512 prefixes from 2^63 - 512 to 2^63 - 1 round to `u = 0.5` and are off in Go, while the model turns them on. Monotonicity in the value, the 0.0 boundary and the NaN/±Inf cases hold in float64 too.
- FeatureFlags.OneValueEnablesAllButTop: holds for exact division only. In float64, value 1.0 switches off the users whose prefix is any of those 1024 values, not only the all-0xFF one.
- Finite flag values are arbitrary reals, not only those float64 can represent. Every comparison in the model is exact.
- The `FlagStorage` interface (ff.go:22-28) is left out because it has no implementation.
- The text of the `fmt.Errorf` message (ff.go:39) is left out. The error carries the rejected value instead.
- `_example_/main.go` is left out because it is a command-line demo.
- The claim that SHA-256 outputs are uniformly distributed, and the enabled fraction it implies, is probabilistic and not modelled.

## Findings

| source | as written | input that shows it | evidently intended | confidence | as-written member | corrected member |
|---|---|---|---|---|---|---|
| ff.go:38 | `value < minValue \|\| value > maxValue` is false for NaN, so the flag is built | `NewFeatureFlag("x", math.NaN())` returns a flag and no error | reject every value outside 0.0 to 1.0 inclusive, as the error message says | high; not executed | FeatureFlags.NaNPassesRangeCheck | FeatureFlags.NewCheckedFeatureFlag |
