/**
 * The noise generator: its lookup table of residues keyed by signed offset,
 * its cumulative table, and the vector generators that read them.
 *
 * The random bytes, the stream generator, the floating-point weights and the
 * scaled Gaussian draws are inputs; the modulus of the subtraction primitive
 * is the explicit constant `q`.
 */
module Generator {
  import opened Limbs
  import opened Cdf
  import opened Sampling

  /** Largest value of a C `int`; the table bound is one. */
  const INT_MAX: int := 0x7fff_ffff
  /** Bytes of randomness written into each flooding residue: 124 / 8. */
  const FLOOD_BYTES: nat := 15

  /** Number of cumulative entries for a table bound: one per positive offset. */
  function CdfLength(maxVal: int): (n: nat)
    ensures n <= if maxVal < 0 then 0 else maxVal
  {
    if maxVal < 0 then 0 else maxVal
  }

  /**
   * The residue the constructor stores under key `k`: `[k, 0, 0]` for a
   * non-negative key, and entry 0 minus entry `-k` modulo `q` for a negative one.
   */
  function TableEntry(q: nat, k: int): (r: Residue)
    requires 0 < q <= LIMB * LIMB * LIMB
    requires -INT_MAX <= k <= INT_MAX
    ensures |r| == 3
  {
    if k >= 0 then [k as uint64, 0, 0]
    else SubModQ(q, [0, 0, 0], [(-k) as uint64, 0, 0])
  }

  /** Every table entry holds its key modulo `q`; a non-negative key holds itself. */
  lemma TableEntryValue(q: nat, k: int)
    requires 0 < q <= LIMB * LIMB * LIMB
    requires -INT_MAX <= k <= INT_MAX
    ensures Value(TableEntry(q, k)) % q == k % q
    ensures k >= 0 ==> Value(TableEntry(q, k)) == k
    ensures k < 0 ==> Value(TableEntry(q, k)) < q
  {
    if k < 0 {
      var zero: Residue := [0, 0, 0];
      var pos: Residue := [(-k) as uint64, 0, 0];
      assert Value(zero) == 0;
      assert Value(pos) == -k;
      assert Value(TableEntry(q, k)) == (Value(zero) - Value(pos)) % q;
      ModOfMod(k, q);
    } else {
      assert Value([k as uint64, 0, 0]) == k;
    }
  }

  lemma ModOfMod(k: int, q: nat)
    requires q > 0
    ensures (k % q) % q == k % q
  {
  }

  /**
   * Below the modulus, the entry for `-i` is the canonical negation of the
   * entry for `i`: the two add up to `q`.
   */
  lemma TableEntryNegation(q: nat, i: nat)
    requires 0 < q <= LIMB * LIMB * LIMB
    requires 0 < i <= INT_MAX && i < q
    ensures Value(TableEntry(q, i)) + Value(TableEntry(q, -(i as int))) == q
  {
    TableEntryValue(q, i);
    var zero: Residue := [0, 0, 0];
    var pos: Residue := [i as uint64, 0, 0];
    assert Value(zero) == 0 && Value(pos) == i;
    assert Value(TableEntry(q, -(i as int))) == (0 - i) % q;
    NegMod(i, q);
  }

  lemma NegMod(i: int, q: int)
    requires 0 < i < q
    ensures (0 - i) % q == q - i
  {
    assert 0 - i == q * (-1) + (q - i);
  }

  /** The lookup table the constructor builds for bound `maxVal`. */
  ghost predicate IsTable(t: map<int, Residue>, q: nat, maxVal: int)
    requires 0 < q <= LIMB * LIMB * LIMB
    requires maxVal <= INT_MAX
  {
    && (forall k :: k in t <==> -maxVal <= k <= maxVal)
    && (forall k :: k in t ==> t[k] == TableEntry(q, k))
  }

  /**
   * `lookUpTable[k]` on a `std::map`: the entry for `k`, or the empty vector
   * a missing key is given.
   */
  function At(t: map<int, Residue>, k: int): Residue
  {
    if k in t then t[k] else []
  }

  /**
   * Looking a key up in the constructor's table: a key within the bound gets
   * its entry, which holds the key modulo `q`; any other key gets the empty
   * residue.
   */
  lemma LookUpEntry(t: map<int, Residue>, q: nat, maxVal: int, k: int)
    requires 0 < q <= LIMB * LIMB * LIMB
    requires maxVal <= INT_MAX
    requires IsTable(t, q, maxVal)
    ensures -maxVal <= k <= maxVal ==> At(t, k) == TableEntry(q, k) && Value(At(t, k)) % q == k % q
    ensures !(-maxVal <= k <= maxVal) ==> At(t, k) == []
  {
    if -maxVal <= k <= maxVal {
      TableEntryValue(q, k);
    }
  }

  /** A flooding residue: fifteen random bytes over a zeroed 24-byte buffer. */
  function FloodEntry(bs: seq<uint8>): (r: Residue)
    requires |bs| == FLOOD_BYTES
    ensures |r| == 3
    ensures Unpack(r) == bs + seq(RESIDUE_BYTES - FLOOD_BYTES, _ => 0 as uint8)
  {
    var buf := bs + seq(RESIDUE_BYTES - FLOOD_BYTES, _ => 0 as uint8);
    UnpackPack(buf);
    Pack(buf)
  }

  /** A flooding residue holds the 120-bit little-endian integer of its fifteen bytes. */
  lemma FloodEntryValue(bs: seq<uint8>)
    requires |bs| == FLOOD_BYTES
    ensures Value(FloodEntry(bs)) == LittleEndian(bs)
    ensures Value(FloodEntry(bs)) < Pow256(FLOOD_BYTES)
  {
    PackValue(bs + seq(RESIDUE_BYTES - FLOOD_BYTES, _ => 0 as uint8));
    LittleEndianZeroPadded(bs, RESIDUE_BYTES - FLOOD_BYTES);
  }

  /** In a flooding residue limb 2 is 0 and limb 1 holds only seven random bytes. */
  lemma FloodEntryLimbs(bs: seq<uint8>)
    requires |bs| == FLOOD_BYTES
    ensures FloodEntry(bs)[2] == 0
    ensures FloodEntry(bs)[1] as nat == LittleEndian(bs[8..15]) < Pow256(7)
  {
    var buf := bs + seq(RESIDUE_BYTES - FLOOD_BYTES, _ => 0 as uint8);
    assert buf[16..24] == seq(8, _ => 0 as uint8);
    LittleEndianZeros(8);
    assert buf[8..16] == bs[8..15] + seq(1, _ => 0 as uint8);
    LittleEndianZeroPadded(bs[8..15], 1);
  }

  lemma {:induction false} ToBytesZero(n: nat)
    ensures ToBytes(0, n) == seq(n, _ => 0 as uint8)
  {
    if n > 0 {
      ToBytesZero(n - 1);
    }
  }

  /** The residue packed at offset `p` of a byte stream reads its three limbs there. */
  lemma PackAt(str: seq<uint8>, p: nat)
    requires p + RESIDUE_BYTES <= |str|
    ensures Pack(str[p .. p + 24]) == [Limb(str[p .. p + 8]), Limb(str[p + 8 .. p + 16]), Limb(str[p + 16 .. p + 24])]
  {
    var bs := str[p .. p + 24];
    assert forall k :: 0 <= k < 24 ==> bs[k] == str[p + k];
    assert bs[0..8] == str[p .. p + 8];
    assert bs[8..16] == str[p + 8 .. p + 16];
    assert bs[16..24] == str[p + 16 .. p + 24];
  }

  /**
   * The residue packed at offset `p` of a byte stream gives back those 24
   * bytes, and each of its limbs is the little-endian integer of its 8 bytes.
   */
  lemma PackLimbs(str: seq<uint8>, p: nat)
    requires p + RESIDUE_BYTES <= |str|
    ensures Unpack(Pack(str[p .. p + 24])) == str[p .. p + 24]
    ensures forall j :: 0 <= j < 3 ==> Pack(str[p .. p + 24])[j] as nat == LittleEndian(str[p + 8 * j .. p + 8 * j + 8])
  {
    PackAt(str, p);
    UnpackPack(str[p .. p + 24]);
  }

  /** Residues packed from consecutive 24-byte blocks give back the blocks and read their limbs there. */
  lemma PackedStream(str: seq<uint8>, ret: seq<Residue>)
    requires |str| == RESIDUE_BYTES * |ret|
    requires forall k :: 0 <= k < |ret| ==> ret[k] == Pack(str[24 * k .. 24 * k + 24])
    ensures forall i :: 0 <= i < |ret| ==> |ret[i]| == 3 && Unpack(ret[i]) == str[24 * i .. 24 * i + 24]
    ensures forall i, j :: 0 <= i < |ret| && 0 <= j < 3 ==>
              ret[i][j] as nat == LittleEndian(str[24 * i + 8 * j .. 24 * i + 8 * j + 8])
  {
    forall i | 0 <= i < |ret|
      ensures |ret[i]| == 3 && Unpack(ret[i]) == str[24 * i .. 24 * i + 24]
      ensures forall j :: 0 <= j < 3 ==> ret[i][j] as nat == LittleEndian(str[24 * i + 8 * j .. 24 * i + 8 * j + 8])
    {
      PackLimbs(str, 24 * i);
    }
  }

  /** A value-initialised residue occupies 24 zero bytes. */
  lemma UnpackZero()
    ensures Unpack([0, 0, 0]) == seq(RESIDUE_BYTES, _ => 0 as uint8)
  {
    ToBytesZero(8);
  }

  /** Writing fifteen bytes over a value-initialised residue gives the flooding entry. */
  lemma FloodWrite(bs: seq<uint8>)
    requires |bs| == FLOOD_BYTES
    ensures Pack(bs + Unpack([0, 0, 0])[FLOOD_BYTES..]) == FloodEntry(bs)
  {
    UnpackZero();
    assert Unpack([0, 0, 0])[FLOOD_BYTES..] == seq(RESIDUE_BYTES - FLOOD_BYTES, _ => 0 as uint8);
  }

  /**
   * The two table loops of the constructor: keys `0..maxVal` hold themselves,
   * then each key `-1` down to `-maxVal` holds entry 0 minus the entry of its
   * magnitude.
   */
  method BuildTable(q: nat, maxVal: int) returns (table: map<int, Residue>)
    requires 0 < q <= LIMB * LIMB * LIMB
    requires -INT_MAX <= maxVal < INT_MAX
    ensures IsTable(table, q, maxVal)
  {
    table := map[];
    var i := 0;
    while i <= maxVal
      invariant 0 <= i <= if maxVal < 0 then 0 else maxVal + 1
      invariant forall k :: k in table <==> 0 <= k < i
      invariant forall k :: k in table ==> table[k] == TableEntry(q, k)
    {
      table := table[i := [i as uint64, 0, 0]];
      i := i + 1;
    }
    var j := -1;
    while j >= -maxVal
      invariant j <= -1 && (maxVal >= 0 ==> j >= -maxVal - 1) && (maxVal < 0 ==> j == -1)
      invariant forall k :: k in table <==> j < k <= maxVal
      invariant forall k :: k in table ==> table[k] == TableEntry(q, k)
    {
      var val := SubModQ(q, table[0], table[-j]);
      table := table[j := val];
      j := j - 1;
    }
  }

  /** The unnormalised weights `density(1..maxVal)` of the positive offsets. */
  function Densities(maxVal: int, density: int -> real): (d: seq<real>)
    ensures |d| == CdfLength(maxVal)
  {
    seq(CdfLength(maxVal), k => density(k + 1))
  }

  /**
   * The constructor's normalising loop: 1 for offset 0, plus the weight of
   * each positive offset twice, once for each sign.
   */
  method NormalisingSum(maxVal: int, density: int -> real) returns (sum: real)
    requires maxVal < INT_MAX
    ensures sum == 1.0 + 2.0 * Sum(Densities(maxVal, density))
  {
    sum := 1.0;
    var x := 1;
    while x <= maxVal
      invariant 1 <= x <= if maxVal < 1 then 1 else maxVal + 1
      invariant sum == 1.0 + 2.0 * Sum(seq(x - 1, k => density(k + 1)))
    {
      assert seq(x, k => density(k + 1))[..x - 1] == seq(x - 1, k => density(k + 1));
      sum := sum + 2.0 * density(x);
      x := x + 1;
    }
  }

  /**
   * The constructor's weight loop: one `push_back` per positive offset
   * `1..maxVal`, each writing the next slot of an array of the final size
   * with the offset's weight scaled by the mass `ma` at zero.
   */
  method WeightArray(maxVal: int, ma: real, density: int -> real) returns (m: array<real>)
    requires maxVal < INT_MAX
    ensures fresh(m)
    ensures m[..] == seq(CdfLength(maxVal), k => ma * density(k + 1))
  {
    m := new real[CdfLength(maxVal)];
    var x := 1;
    while x <= maxVal
      invariant 1 <= x <= if maxVal < 1 then 1 else maxVal + 1
      invariant forall k :: 0 <= k < x - 1 ==> m[k] == ma * density(k + 1)
    {
      m[x - 1] := ma * density(x);
      x := x + 1;
    }
    assert m.Length == CdfLength(maxVal);
    assert forall k :: 0 <= k < m.Length ==> m[k] == ma * density(k + 1);
    assert forall k :: 0 <= k < m.Length ==> m[..][k] == seq(CdfLength(maxVal), k => ma * density(k + 1))[k];
  }

  /**
   * Normalising by `1 + 2 * Sum(d)`: the mass at zero lies in `(0, 1]`, the
   * scaled weights stay non-negative, and the mass at zero plus both tails
   * adds up to 1.
   */
  /**
   * The constructor's normalisation: the mass `ma` at zero is 1 over the
   * normalising sum, and the weight array holds each positive offset's
   * weight scaled by it.
   */
  method NormalisedWeights(maxVal: int, density: int -> real) returns (ma: real, m: array<real>)
    requires maxVal < INT_MAX
    requires forall x :: 1 <= x <= maxVal ==> 0.0 <= density(x)
    ensures fresh(m)
    ensures ma * (1.0 + 2.0 * Sum(Densities(maxVal, density))) == 1.0
    ensures m[..] == seq(CdfLength(maxVal), k => ma * density(k + 1))
    ensures 0.0 < ma <= 1.0 && NonNegative(m[..])
    ensures ma + 2.0 * Sum(m[..]) == 1.0
  {
    var sum := NormalisingSum(maxVal, density);
    ghost var d := Densities(maxVal, density);
    assert NonNegative(d) by {
      forall k | 0 <= k < |d| ensures 0.0 <= d[k] {
        assert d[k] == density(k + 1);
      }
    }
    SumNonNegative(d);
    ma := 1.0 / sum;
    Inverse(sum);
    m := WeightArray(maxVal, ma, density);
    assert forall k :: 0 <= k < m.Length ==> m[..][k] == ma * d[k];
    NormalisedMass(d, m[..], ma);
  }

  lemma NormalisedMass(d: seq<real>, w: seq<real>, a: real)
    requires NonNegative(d)
    requires a * (1.0 + 2.0 * Sum(d)) == 1.0
    requires |w| == |d| && forall k :: 0 <= k < |w| ==> w[k] == a * d[k]
    ensures 0.0 < a <= 1.0 && NonNegative(w)
    ensures a + 2.0 * Sum(w) == 1.0
  {
    SumNonNegative(d);
    Reciprocal(a, Sum(d));
    assert Sum(w) == a * Sum(d) by {
      SumScaled(w, d, a);
    }
    assert NonNegative(w) by {
      forall k | 0 <= k < |w|
        ensures 0.0 <= w[k]
      {
        ProductNonNegative(a, d[k]);
      }
    }
  }

  lemma Reciprocal(a: real, s: real)
    requires 0.0 <= s && a * (1.0 + 2.0 * s) == 1.0
    ensures 0.0 < a <= 1.0 && a + 2.0 * (a * s) == 1.0
  {
  }

  lemma Inverse(x: real)
    requires x != 0.0
    ensures (1.0 / x) * x == 1.0
  {
  }

  lemma ProductNonNegative(x: real, y: real)
    requires 0.0 <= x && 0.0 <= y
    ensures 0.0 <= x * y
  {
  }

  class NoiseGenerator {
    /** Modulus of the subtraction primitive. */
    const q: nat
    /** `max_val`: the table covers the offsets `-maxVal..maxVal`. */
    const maxVal: int
    /** `m_a`: the probability mass at offset 0. */
    const a: real
    /** `lookUpTable`: residue for each signed offset. */
    var lookUpTable: map<int, Residue>
    /** `m_vals`: cumulative weights of the offsets `1..maxVal`. */
    var vals: array<real>
    /** The weights of the offsets `1..maxVal`, before accumulation. */
    ghost var weights: seq<real>

    ghost predicate Valid()
      reads this, vals
    {
      && 0 < q <= LIMB * LIMB * LIMB
      && -INT_MAX <= maxVal < INT_MAX
      && IsTable(lookUpTable, q, maxVal)
      && |weights| == vals.Length == CdfLength(maxVal)
      && vals[..] == PrefixSums(weights)
      && 0.0 < a && NonNegative(weights)
      // the mass at zero and the two tails make a probability distribution
      && a + 2.0 * Sum(weights) == 1.0
      && (maxVal <= 0 ==> a == 1.0)
    }

    /**
     * `NoiseGenerator(std)`, given what it computes from `std` in floating
     * point: the bound `maxVal` and the unnormalised weight `density(x)` of
     * each positive offset. The mass at zero is 1 over the normalising sum,
     * so with no positive offset the whole mass sits at zero.
     */
    constructor (q: nat, maxVal: int, density: int -> real)
      requires 0 < q <= LIMB * LIMB * LIMB
      requires -INT_MAX <= maxVal < INT_MAX
      requires forall x :: 1 <= x <= maxVal ==> 0.0 <= density(x)
      ensures Valid() && fresh(vals)
      ensures this.q == q && this.maxVal == maxVal
      ensures weights == seq(CdfLength(maxVal), k => a * density(k + 1))
    {
      var table := BuildTable(q, maxVal);
      var ma, m := NormalisedWeights(maxVal, density);
      ghost var w := m[..];
      PrefixSumInPlace(m);
      this.q := q;
      this.maxVal := maxVal;
      this.a := ma;
      lookUpTable := table;
      vals := m;
      weights := w;
    }

    /** The cumulative table is ascending. */
    lemma CdfSorted()
      requires Valid()
      ensures Sorted(vals[..])
    {
      PrefixSumsSorted(weights);
    }

    /** The cumulative table ends at `(1 - a) / 2`, the mass of the positive offsets. */
    lemma CdfTotal()
      requires Valid() && maxVal >= 1
      ensures vals[vals.Length - 1] == (1.0 - a) / 2.0
    {
      PrefixSumsLast(weights);
    }

    /**
     * As written, every negative 32-bit draw overshoots the cumulative table
     * of a constructed generator and selects offset -1.
     */
    lemma NegativeDrawSelectsMinusOne(r: int32)
      requires Valid() && r < 0
      ensures GaussianKey(SignedDrawValue(r), a, vals[..]) == -1
    {
      SumNonNegative(weights);
      CdfSorted();
      if maxVal >= 1 {
        CdfTotal();
      }
      SignedDrawMiss(r, a, vals[..]);
    }

    /**
     * `GenerateGaussianVector`, given the scaled draw `val` of each entry.
     */
    method GenerateGaussianVector(draws: seq<real>) returns (ret: seq<Residue>)
      requires Valid()
      ensures |ret| == |draws|
      ensures forall i :: 0 <= i < |draws| ==> ret[i] == At(lookUpTable, GaussianKey(draws[i], a, vals[..]))
      ensures maxVal >= 1 ==> forall i :: 0 <= i < |draws| ==>
                -maxVal <= GaussianKey(draws[i], a, vals[..]) <= maxVal &&
                ret[i] == TableEntry(q, GaussianKey(draws[i], a, vals[..])) &&
                Value(ret[i]) % q == GaussianKey(draws[i], a, vals[..]) % q
      ensures maxVal < 1 ==> forall i :: 0 <= i < |draws| ==>
                ret[i] == if maxVal == 0 && AbsReal(draws[i]) <= a / 2.0 then [0, 0, 0] else []
    {
      var cdf := vals[..];
      ret := seq(|draws|, _ => []);
      for i := 0 to |draws|
        invariant |ret| == |draws|
        invariant forall k :: 0 <= k < i ==> ret[k] == At(lookUpTable, GaussianKey(draws[k], a, cdf))
      {
        var val := draws[i];
        if AbsReal(val) <= a / 2.0 {
          ret := ret[i := At(lookUpTable, 0)];
        } else {
          var index := FindInVector(cdf, AbsReal(val) - a / 2.0);
          if val > 0.0 {
            ret := ret[i := At(lookUpTable, index + 1)];
          } else {
            ret := ret[i := At(lookUpTable, -(index as int + 1))];
          }
        }
      }
      forall i | 0 <= i < |draws| {
        LookUpEntry(lookUpTable, q, maxVal, GaussianKey(draws[i], a, cdf));
      }
    }

    /**
     * `GenerateFloodingNoiseVector`, given the fifteen random bytes of each
     * entry, one entry after another in `stream`.
     */
    method GenerateFloodingNoiseVector(size: nat, stream: seq<uint8>) returns (ret: seq<Residue>)
      requires |stream| == FLOOD_BYTES * size
      ensures |ret| == size
      ensures forall i :: 0 <= i < size ==>
                ret[i] == FloodEntry(stream[FLOOD_BYTES * i .. FLOOD_BYTES * i + FLOOD_BYTES])
      ensures forall i :: 0 <= i < size ==>
                |ret[i]| == 3 && ret[i][2] == 0 && Value(ret[i]) < Pow256(FLOOD_BYTES) &&
                Value(ret[i]) == LittleEndian(stream[FLOOD_BYTES * i .. FLOOD_BYTES * i + FLOOD_BYTES])
    {
      ret := seq(size, _ => [0, 0, 0]);
      for i := 0 to size
        invariant |ret| == size
        invariant forall k :: i <= k < size ==> ret[k] == [0, 0, 0]
        invariant forall k :: 0 <= k < i ==>
                    ret[k] == FloodEntry(stream[FLOOD_BYTES * k .. FLOOD_BYTES * k + FLOOD_BYTES])
      {
        // growing the residue to three limbs keeps its zero limbs; its bytes are then overwritten
        var buf := Unpack(ret[i]);
        var bs := stream[FLOOD_BYTES * i .. FLOOD_BYTES * i + FLOOD_BYTES];
        FloodWrite(bs);
        buf := bs + buf[FLOOD_BYTES..];
        ret := ret[i := Pack(buf)];
      }
      forall i | 0 <= i < size
        ensures ret[i][2] == 0 && Value(ret[i]) < Pow256(FLOOD_BYTES)
        ensures Value(ret[i]) == LittleEndian(stream[FLOOD_BYTES * i .. FLOOD_BYTES * i + FLOOD_BYTES])
      {
        FloodEntryValue(stream[FLOOD_BYTES * i .. FLOOD_BYTES * i + FLOOD_BYTES]);
        FloodEntryLimbs(stream[FLOOD_BYTES * i .. FLOOD_BYTES * i + FLOOD_BYTES]);
      }
    }

    /**
     * `GenerateUniformVector(size)`, given the 24 random bytes of each entry,
     * one entry after another in `stream`. Entries are not reduced modulo `q`.
     */
    method GenerateUniformVector(size: nat, stream: seq<uint8>) returns (ret: seq<Residue>)
      requires |stream| == RESIDUE_BYTES * size
      ensures |ret| == size
      ensures forall i :: 0 <= i < size ==>
                |ret[i]| == 3 &&
                Unpack(ret[i]) == stream[RESIDUE_BYTES * i .. RESIDUE_BYTES * i + RESIDUE_BYTES] &&
                Value(ret[i]) == LittleEndian(stream[RESIDUE_BYTES * i .. RESIDUE_BYTES * i + RESIDUE_BYTES])
    {
      ret := seq(size, _ => [0, 0, 0]);
      for i := 0 to size
        invariant |ret| == size
        invariant forall k :: 0 <= k < i ==>
                    |ret[k]| == 3 &&
                    Unpack(ret[k]) == stream[RESIDUE_BYTES * k .. RESIDUE_BYTES * k + RESIDUE_BYTES] &&
                    Value(ret[k]) == LittleEndian(stream[RESIDUE_BYTES * k .. RESIDUE_BYTES * k + RESIDUE_BYTES])
      {
        var bs := stream[RESIDUE_BYTES * i .. RESIDUE_BYTES * i + RESIDUE_BYTES];
        UnpackPack(bs);
        PackValue(bs);
        ret := ret[i := Pack(bs)];
      }
    }

    /**
     * `GenerateUniformVector(seed, size)`: the stream generator keyed by the
     * seed, with the bytes after the sixteenth as IV, yields 24 bytes per
     * entry, read through a cursor as consecutive little-endian limbs.
     * `prng(key, iv, n)` stands for constructing the generator from
     * (key, iv) and sampling `n` bytes from it.
     */
    method GenerateUniformVectorSeeded(seed: seq<uint8>, size: nat,
                                       prng: (seq<uint8>, seq<uint8>, nat) -> seq<uint8>)
      returns (ret: seq<Residue>)
      requires |seed| >= 16
      requires |prng(seed, seed[16..], RESIDUE_BYTES * size)| == RESIDUE_BYTES * size
      ensures |ret| == size
      ensures forall i :: 0 <= i < size ==>
                |ret[i]| == 3 && Unpack(ret[i]) == prng(seed, seed[16..], RESIDUE_BYTES * size)[24 * i .. 24 * i + 24]
      ensures forall i, j :: 0 <= i < size && 0 <= j < 3 ==>
                ret[i][j] as nat == LittleEndian(prng(seed, seed[16..], RESIDUE_BYTES * size)[24 * i + 8 * j .. 24 * i + 8 * j + 8])
    {
      var iv := seed[16..];
      var s := seed;
      var str := prng(s, iv, RESIDUE_BYTES * size);
      ret := seq(size, _ => [0, 0, 0]);
      var ptr := 0;
      for i := 0 to size
        invariant ptr == 24 * i
        invariant |ret| == size
        invariant forall k :: 0 <= k < i ==> ret[k] == Pack(str[24 * k .. 24 * k + 24])
      {
        var l0 := Limb(str[ptr .. ptr + 8]);
        ptr := ptr + 8;
        var l1 := Limb(str[ptr .. ptr + 8]);
        ptr := ptr + 8;
        var l2 := Limb(str[ptr .. ptr + 8]);
        ptr := ptr + 8;
        PackAt(str, 24 * i);
        ret := ret[i := [l0, l1, l2]];
      }
      PackedStream(str, ret);
    }

    /** `GenerateBinaryVector`, given one random byte per entry. */
    method GenerateBinaryVector(randomness: seq<uint8>) returns (ret: seq<Residue>)
      requires Valid()
      ensures |ret| == |randomness|
      ensures forall i :: 0 <= i < |randomness| ==> ret[i] == At(lookUpTable, BinaryKey(randomness[i]))
      ensures maxVal >= 1 ==> forall i :: 0 <= i < |randomness| ==>
                ret[i] == [(randomness[i] % 2) as uint64, 0, 0]
      ensures maxVal < 1 ==> forall i :: 0 <= i < |randomness| ==>
                ret[i] == if maxVal == 0 && randomness[i] % 2 == 0 then [0, 0, 0] else []
    {
      ret := seq(|randomness|, _ => []);
      for i := 0 to |randomness|
        invariant |ret| == |randomness|
        invariant forall k :: 0 <= k < i ==> ret[k] == At(lookUpTable, BinaryKey(randomness[k]))
      {
        ret := ret[i := At(lookUpTable, (randomness[i] % 2) as int)];
      }
    }

    /** `GenerateZOVector`, given one random byte per entry. */
    method GenerateZOVector(randomness: seq<uint8>) returns (ret: seq<Residue>)
      requires Valid()
      ensures |ret| == |randomness|
      ensures forall i :: 0 <= i < |randomness| ==> ret[i] == At(lookUpTable, ZOKey(randomness[i]))
      ensures maxVal >= 1 ==> forall i :: 0 <= i < |randomness| ==>
                ret[i] == TableEntry(q, ZOKey(randomness[i])) &&
                Value(ret[i]) % q == ZOKey(randomness[i]) % q
    {
      ret := seq(|randomness|, _ => []);
      for i := 0 to |randomness|
        invariant |ret| == |randomness|
        invariant forall k :: 0 <= k < i ==> ret[k] == At(lookUpTable, ZOKey(randomness[k]))
      {
        var val := randomness[i] % 4;
        if val == 0 {
          ret := ret[i := At(lookUpTable, 1)];
        } else if val == 1 {
          ret := ret[i := At(lookUpTable, -1)];
        } else {
          ret := ret[i := At(lookUpTable, 0)];
        }
      }
      forall i | 0 <= i < |randomness| {
        LookUpEntry(lookUpTable, q, maxVal, ZOKey(randomness[i]));
      }
    }
  }
}
