# Noise generator of the PAHE lattice-encryption library, in Dafny

This project models the deterministic core of `NoiseGenerator`
(`PAHE/RandomGenerator.cpp`). `NoiseGenerator` produces small signed noise
values as three-limb residues modulo the scheme's modulus Q. The model covers
the following:

- **Lookup table.** The constructor builds a table keyed by the signed offsets
  `-max_val..max_val`. Offset `i >= 0` holds the residue `[i, 0, 0]`. Offset
  `-i` holds entry 0 minus entry `i` under the external primitive
  `asmSubModQ`.
- **Normalisation.** The mass `m_a` at zero is 1 over `1 + 2 * (total
  unnormalised weight)`, so `m_a` and the two tails add up to 1.
- **Cumulative table.** `m_vals` gets one weight per positive offset: `m_a`
  times its unnormalised weight. A loop then turns it into running sums in
  place, ending at `(1 - m_a)/2`.
- **`FindInVector`.** This is `std::lower_bound` over `m_vals`, with index 0
  when the search runs off the end.
- **Key selection.** Each generator maps a draw to a table key:
  - Gaussian: key 0, `+(index+1)` or `-(index+1)`.
  - Binary: `b % 2`.
  - Ternary ("ZO"): +1, -1 or 0, chosen by `b % 4`.
- **Byte packing.** Random bytes are packed into little-endian 64-bit limbs:
  - The raw uniform generator and the seeded uniform generator use 24 bytes
    per residue.
  - The flooding generator writes 15 bytes into a zeroed residue.

Modules:

- `Limbs` (`limbs.dfy`): bytes, limbs, residues and the value they hold,
  little-endian packing and its inverse, and `SubModQ`. `SubModQ` is the
  subtraction primitive, with Q as the explicit parameter `q`.
- `Cdf` (`cdf.dfy`): running sums, the in-place prefix-sum method, and
  `LowerBound`/`FindInVector`.
- `Sampling` (`sampling.dfy`): how one draw or byte becomes a key, the
  byte-value counts of the binary and ternary mappings, and the scaling of the
  32-bit Gaussian draw.
- `Generator` (`generator.dfy`): the class `NoiseGenerator`, with its table,
  its cumulative array `vals` and the six generators. The random bytes are
  parameters: a flat byte stream, or one byte per entry. So is the seeded
  stream generator, `prng(key, iv, n)`.

The seeded generator copies the whole seed into the buffer it hands the PRNG
as key, and passes `seed[16..]` as IV. The model gives `prng` the whole seed
as key; a PRNG that reads only the first 16 bytes of its key is one instance
of `prng`.

Where the code and the component's intended behaviour disagree, the model
follows the code:

- **`max_val = 0` (σ = 0).** With no positive offset the constructor's
  normalising sum stays 1, so `m_a = 1` and `m_vals` is empty. The intended
  behaviour is that every Gaussian draw then gives the residue of 0, and with
  an unsigned draw it does (`UnsignedDrawDegenerate`: `|val| <= 0.5 = m_a/2`).
  In the code the draw is signed (the finding below), so every negative draw
  scales below -0.5 and looks up key -1 (`SignedDrawDegenerate`). That key is
  not in the table, and `std::map` hands back an empty vector.
  `GenerateGaussianVector` states exactly this. `GenerateBinaryVector` also
  returns the empty vector for odd bytes, since it looks up key 1.
- **Flooding buffer.** The intended behaviour is that the caller must zero
  the flooding buffer. The code value-initialises every residue itself.
  `GenerateFloodingNoiseVector` therefore states that limb 2 is 0.

## Model

| member | source | states |
|---|---|---|
| `Limbs.Limb` | PAHE/RandomGenerator.cpp:130-135 | a limb read through the `uint64_t*` cursor is the one `uint64_t` whose eight little-endian bytes are exactly the bytes read |
| `Limbs.SubModQ` | PAHE/RandomGenerator.cpp:8 | the subtraction primitive yields three limbs holding `(X - Y) mod q` |
| `Limbs.Encode` | PAHE/RandomGenerator.cpp:8 | the witness that builds `SubModQ`'s result: any integer below 2^192 has a three-limb residue that holds exactly it |
| `Limbs.LittleEndian` | PAHE/RandomGenerator.cpp:130-135 | the little-endian integer of `n` bytes is below 256^n |
| `Limbs.LittleEndianToBytes` | PAHE/RandomGenerator.cpp:130-135 | reading back the `n` little-endian bytes of `v < 256^n` gives `v` |
| `Limbs.ToBytesLittleEndian` | PAHE/RandomGenerator.cpp:130-135 | writing out the little-endian integer of a byte string gives the same bytes |
| `Limbs.LittleEndianAppend` | PAHE/RandomGenerator.cpp:130-135 | in a concatenation, the later bytes weigh 256^(length of the earlier) |
| `Limbs.LittleEndianZeroPadded` | PAHE/RandomGenerator.cpp:104-105 | zero bytes above a little-endian string do not change its value |
| `Limbs.Pack` | PAHE/RandomGenerator.cpp:130-135 | limb `j` of the residue read from 24 bytes is the `uint64_t` whose little-endian bytes are bytes `8j .. 8j+7` |
| `Limbs.PackValue` | PAHE/RandomGenerator.cpp:113-114 | the residue packed from 24 bytes holds the 192-bit little-endian integer of those bytes |
| `Limbs.Unpack` | PAHE/RandomGenerator.cpp:113-114 | the 24 bytes a residue occupies are, limb by limb, the little-endian bytes of its limbs |
| `Limbs.UnpackValue` | PAHE/RandomGenerator.cpp:113-114 | the 24 bytes a residue occupies, read little-endian, give back the value it holds |
| `Limbs.UnpackPack` | PAHE/RandomGenerator.cpp:129-136 | packing 24 bytes into three limbs and writing them back out gives the same 24 bytes |
| `Limbs.PackUnpack` | PAHE/RandomGenerator.cpp:129-136 | writing out a three-limb residue and packing the bytes again gives the same residue |
| `Cdf.PrefixSumInPlace` | PAHE/RandomGenerator.cpp:60-62 | after the in-place loop, entry `k` of the array is the sum of the original entries `0..k` |
| `Cdf.SumMonotone` | PAHE/RandomGenerator.cpp:55-62 | with non-negative weights, a longer running sum is never smaller |
| `Cdf.PrefixSumsSorted` | PAHE/RandomGenerator.cpp:55-62 | running sums of non-negative weights are non-decreasing |
| `Cdf.PrefixSumsLast` | PAHE/RandomGenerator.cpp:60-62 | the last running sum is the total weight |
| `Cdf.LowerBound` | PAHE/RandomGenerator.cpp:71 | on a sorted vector, every element before the returned position is below the target, and every element from it to the end of the range is not |
| `Cdf.FindInVector` | PAHE/RandomGenerator.cpp:68-76 | the result is 0 or a valid index; on a sorted vector it is the smallest index whose element is at least `search` if one exists, and otherwise 0 |
| `Sampling.GaussianKey` | PAHE/RandomGenerator.cpp:86-96 | the key is 0 iff `abs(val) <= a/2`, and positive iff additionally `val > 0`; a nonzero key has magnitude in `[1, max(len, 1)]`; on a sorted table that magnitude is one past the first entry reaching `abs(val) - a/2`, or 1 on a miss |
| `Sampling.GaussianKeyOdd` | PAHE/RandomGenerator.cpp:87-95 | a nonzero draw and its negation select opposite keys |
| `Sampling.BinaryKey` | PAHE/RandomGenerator.cpp:148 | the binary key is 0 or 1, and 1 exactly for odd bytes |
| `Sampling.BinaryCounts` | PAHE/RandomGenerator.cpp:148 | among byte values `0..2m-1`, exactly `m` give key 0 and `m` give key 1 |
| `Sampling.BinaryDistribution` | PAHE/RandomGenerator.cpp:148 | of the 256 byte values, 128 give 0 and 128 give 1 |
| `Sampling.ZOKey` | PAHE/RandomGenerator.cpp:158-165 | the ternary key lies in `-1..1`: +1 exactly for `b % 4 == 0`, and -1 exactly for `b % 4 == 1` |
| `Sampling.ZOCounts` | PAHE/RandomGenerator.cpp:158-165 | among byte values `0..4m-1`, key +1 and key -1 are each given by `m` of them, and key 0 by `2m` |
| `Sampling.ZODistribution` | PAHE/RandomGenerator.cpp:158-165 | of the 256 byte values, 128 give 0, 64 give +1 and 64 give -1 |
| `Sampling.SignedDrawValue` | PAHE/RandomGenerator.cpp:80-86 | as written, with a signed `int` draw, the scaled value lies in `[-1 - 1/(2(2^32-1)), -1/(2(2^32-1))]`, so it is always negative, and it is below -0.5 exactly for negative draws |
| `Sampling.SignedDrawNeverPositive` | PAHE/RandomGenerator.cpp:80-95 | as written, no draw ever selects a positive offset |
| `Sampling.SignedDrawMiss` | PAHE/RandomGenerator.cpp:80-95 | as written, when the cumulative table ends at or below `(1 - a)/2` (its total mass), every negative draw misses the table and selects offset -1 |
| `Sampling.SignedDrawDegenerate` | PAHE/RandomGenerator.cpp:80-95 | as written, with `a = 1` and an empty cumulative table (`max_val = 0`), every negative draw selects offset -1 |
| `Sampling.UnsignedDrawDegenerate` | PAHE/RandomGenerator.cpp:83-88 | with unsigned draws, `a = 1` and an empty cumulative table, every draw selects offset 0 |
| `Sampling.UnsignedDrawValue` | PAHE/RandomGenerator.cpp:83-86 | an unsigned 32-bit draw scales into `[-0.5, 0.5]` and never to 0 |
| `Sampling.UnsignedDrawComplement` | PAHE/RandomGenerator.cpp:83-86 | complementary unsigned draws scale to opposite values |
| `Sampling.UnsignedDrawSymmetric` | PAHE/RandomGenerator.cpp:83-96 | with unsigned draws, a draw and its complement select opposite offsets |
| `Sampling.UnsignedDrawReachesPositive` | PAHE/RandomGenerator.cpp:83-92 | with unsigned draws and `a < 1`, the largest draw selects a positive offset |
| `Generator.TableEntry` | PAHE/RandomGenerator.cpp:33-43 | every table entry has three limbs |
| `Generator.TableEntryValue` | PAHE/RandomGenerator.cpp:33-43 | every entry holds its key modulo `q`; a non-negative key holds itself, and a negative key holds a value below `q` |
| `Generator.TableEntryNegation` | PAHE/RandomGenerator.cpp:39-43 | for `0 < i < q`, the entries for `i` and `-i` add up to `q` |
| `Generator.LookUpEntry` | PAHE/RandomGenerator.cpp:88-94 | `lookUpTable[k]` (modelled by `At`) on the constructed table: a key within `-maxVal..maxVal` gives its entry, which holds the key modulo `q`; any other key gives the empty vector |
| `Generator.BuildTable` | PAHE/RandomGenerator.cpp:33-43 | for `maxVal < INT_MAX`, the two loops build a table whose keys are exactly `-maxVal..maxVal`, each holding `TableEntry` of its key |
| `Generator.NormalisingSum` | PAHE/RandomGenerator.cpp:45-49 | the normalising sum is 1 plus twice the total unnormalised weight of the positive offsets |
| `Generator.NormalisedWeights` | PAHE/RandomGenerator.cpp:45-58 | `m_a` is the reciprocal of the normalising sum, lies in `(0, 1]`, and each slot holds `m_a` times its offset's unnormalised weight; these weights are non-negative, and `m_a` plus twice their total is 1 |
| `Generator.NormalisedMass` | PAHE/RandomGenerator.cpp:45-58 | normalising non-negative weights by `1 + 2 * total`: the mass at zero lies in `(0, 1]`, the scaled weights stay non-negative, and the mass at zero plus both tails is 1 |
| `Generator.WeightArray` | PAHE/RandomGenerator.cpp:55-58 | a fresh array with one slot per positive offset, slot `k` holding `m_a` times the unnormalised weight of offset `k+1` |
| `Generator.FloodEntry` | PAHE/RandomGenerator.cpp:102-105 | a flooding residue occupies exactly its 15 random bytes followed by 9 zero bytes |
| `Generator.FloodEntryValue` | PAHE/RandomGenerator.cpp:102-105 | a flooding residue holds the little-endian integer of its 15 bytes, which is below 2^120 |
| `Generator.FloodEntryLimbs` | PAHE/RandomGenerator.cpp:102-105 | in a flooding residue, limb 2 is 0 and limb 1 is below 2^56 |
| `Generator.UnpackZero` | PAHE/RandomGenerator.cpp:102-104 | a value-initialised residue occupies 24 zero bytes |
| `Generator.FloodWrite` | PAHE/RandomGenerator.cpp:104-105 | writing 15 bytes over a value-initialised residue gives the flooding entry |
| `Generator.PackLimbs` | PAHE/RandomGenerator.cpp:130-135 | the residue packed at offset `p` writes back out to bytes `p .. p+23`, and its limb `j` is the little-endian integer of bytes `p+8j .. p+8j+7` |
| `Generator.PackedStream` | PAHE/RandomGenerator.cpp:129-135 | residues packed from consecutive 24-byte blocks of a stream write back out to those blocks and read their limbs there |
| `Generator.NoiseGenerator.constructor` | PAHE/RandomGenerator.cpp:33-62 | the table's keys are exactly `-maxVal..maxVal`, with the entries above; the weight of offset `x` is `a` times its unnormalised weight, and `a` plus twice the total weight is 1, which fixes `a` as 1 over the normalising sum (so `a = 1` with no positive offset); `vals` has one entry per positive offset, and entry `k` is the sum of the weights of offsets `1..k+1` |
| `Generator.NoiseGenerator.CdfSorted` | PAHE/RandomGenerator.cpp:55-62 | the cumulative array is non-decreasing |
| `Generator.NoiseGenerator.CdfTotal` | PAHE/RandomGenerator.cpp:45-62 | the last cumulative entry is `(1 - a)/2`, the mass of the positive offsets |
| `Generator.NoiseGenerator.NegativeDrawSelectsMinusOne` | PAHE/RandomGenerator.cpp:80-95 | as written, on every constructed generator each negative 32-bit draw overshoots the cumulative table and selects offset -1 |
| `Generator.NoiseGenerator.GenerateGaussianVector` | PAHE/RandomGenerator.cpp:78-99 | one entry per draw: the table entry at the draw's `GaussianKey`; for `maxVal >= 1` that key is within `-maxVal..maxVal` and the entry holds it modulo `q`; for `maxVal < 1` the entry is the residue of 0 or the empty vector |
| `Generator.NoiseGenerator.GenerateFloodingNoiseVector` | PAHE/RandomGenerator.cpp:101-108 | `size` entries; entry `i` is bytes `15i .. 15i+14` over a zeroed residue, so its limb 2 is 0 and its value is below 2^120 |
| `Generator.NoiseGenerator.GenerateUniformVector` | PAHE/RandomGenerator.cpp:110-117 | `size` entries; entry `i` has three limbs, holds bytes `24i .. 24i+23` as a little-endian integer, and writes back out to exactly those bytes |
| `Generator.NoiseGenerator.GenerateUniformVectorSeeded` | PAHE/RandomGenerator.cpp:119-141 | needs at least 16 seed bytes; returns `size` entries; limb `j` of entry `i` is the little-endian integer of stream bytes `24i+8j .. 24i+8j+7`, where the stream comes from the PRNG keyed by the seed with IV `seed[16..]`; this fixes every limb, so the result depends only on seed, size and PRNG |
| `Generator.NoiseGenerator.GenerateBinaryVector` | PAHE/RandomGenerator.cpp:143-151 | one entry per byte, the table entry at `b % 2`: `[b % 2, 0, 0]` when `maxVal >= 1`, and `[0,0,0]` or the empty vector otherwise |
| `Generator.NoiseGenerator.GenerateZOVector` | PAHE/RandomGenerator.cpp:153-169 | one entry per byte, the table entry at `ZOKey(b)`; when `maxVal >= 1` it holds that key modulo `q` |

## Findings

| source | as written | input that shows it | evidently intended | confidence | as-written member | corrected member |
|---|---|---|---|---|---|---|
| PAHE/RandomGenerator.cpp:80-86 | `randomness` is a `vector<int>`, so the draw `r` is signed and `val = r / (2^32 - 1) - 0.5` lies in about `[-1, 0)` | `r = 2147483647`, the largest draw, gives `val = -1 / (2 * (2^32 - 1)) < 0`, so `val > 0` never holds and every nonzero key is negative; any `r < 0` gives `val < -0.5`, which overshoots the cumulative table of every constructed generator (`NegativeDrawSelectsMinusOne`) and selects -1, an absent key (empty residue) when `max_val = 0` | an unsigned 32-bit draw, with `val` spread over `[-0.5, 0.5]` and both signs equally likely | high (not executed; the margin `1.2e-10` is far above double rounding) | `Sampling.SignedDrawNeverPositive` | `Sampling.UnsignedDrawSymmetric` |

`GenerateGaussianVector` takes the scaled value `val` of each draw as input.
So it holds under either scaling, and the corrected scaling is
`UnsignedDrawValue`.

## Left out

- Randomness from `RAND_bytes`: the drawn bytes are parameters, one byte per
  entry or a flat stream. A failing draw is not modelled.
- The `PRNG` class: it is the function parameter `prng(key, iv, n)`, which
  must yield `n` bytes. The internals of `crypto/prng.h` are not part of this
  model. Neither is the `new`/`delete` lifetime of the PRNG object.
- Generator.NoiseGenerator.GenerateUniformVectorSeeded: a 16-byte seed gives
  an empty IV, and the PRNG is still handed that empty vector's data pointer.
  The model passes the empty sequence; what the PRNG reads through that
  pointer is not modelled. A seed shorter than 16 bytes makes the IV range
  invalid in the code and is excluded.
- `asmSubModQ` is external assembly. It is modelled by its mathematical
  contract: the result holds `(X - Y) mod q`, with `q` explicit and at most
  2^192. What the assembly does with unreduced inputs is not modelled.
- Floating point is left out:
  - the `max_val` formula with `ceil`, `sqrt` and `log`;
  - the `exp` weights;
  - the scaling of a draw into `val`.

  `maxVal`, the unnormalised weight `density(x)` of each positive offset and
  each `val` are inputs. The normalising sum and `m_a` are computed from them
  in exact reals, so rounding, NaN and infinities are not modelled.
- Generator.NoiseGenerator.GenerateGaussianVector: takes the scaled values
  `val` instead of the `4 * size` random bytes. So the contract says nothing
  about the distribution of keys over raw draws. The finding above covers the
  scaling separately.
- Generator.NoiseGenerator.constructor: takes `maxVal` and the unnormalised
  weights instead of `std`. It does not model the stored `m_std`. The weights
  must be non-negative, as `exp` values are.
- Generator.NoiseGenerator.constructor: `max_val == INT_MAX` overflows the
  loop counters at lines 33, 47 and 55 and is excluded (`maxVal < INT_MAX`),
  as is `max_val == INT_MIN`, whose negation at line 39 overflows.
  `BuildTable`, `NormalisingSum`, `WeightArray` and `Valid()` carry the same
  bound.
- Statistical properties (goodness of fit, sample mean and deviation) are not
  modelled. The binary and ternary mappings are characterised by exact counts
  over the 256 byte values.
- `std::map::operator[]` on a missing key inserts an empty entry. The model
  only returns the empty vector (`At`). The growth of the key set is not
  modelled, because it changes no later lookup.
- NTL: the π constant computed at lines 64-65 is never read. `ZZToU3` at lines
  11-20 is never called.
- The host is assumed to be little-endian. The pointer casts are modelled as
  little-endian reads and writes of bytes.
- A negative `size` is not modelled: the vector constructor would throw. Sizes
  are natural numbers, or the length of the given randomness.
- Concurrency and thread safety are not modelled.
