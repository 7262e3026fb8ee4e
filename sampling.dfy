/**
 * How one random draw becomes a table key in each generator.
 *
 * Gaussian: a scaled draw `val` and the point mass `a` at zero choose key 0,
 * or a signed offset found by inverting the cumulative table.
 * Binary: a random byte `b` chooses key `b % 2`.
 * Ternary ("ZO"): a random byte chooses +1, -1 or 0 by `b % 4`.
 */
module Sampling {
  import opened Limbs
  import opened Cdf

  function AbsReal(x: real): (r: real)
    ensures 0.0 <= r && (r == x || r == -x)
  {
    if x < 0.0 then -x else x
  }

  function Magnitude(k: int): (m: nat)
    ensures m == k || m == -k
  {
    if k < 0 then -k else k
  }

  /**
   * The key `GenerateGaussianVector` looks up for the scaled draw `val`,
   * given the point mass `a` at zero and the cumulative table `cdf`.
   */
  function GaussianKey(val: real, a: real, cdf: seq<real>): (key: int)
    ensures key == 0 <==> AbsReal(val) <= a / 2.0
    ensures key > 0 <==> AbsReal(val) > a / 2.0 && val > 0.0
    ensures key != 0 ==> 1 <= Magnitude(key) <= if |cdf| == 0 then 1 else |cdf|
    // inverse CDF: the magnitude is one past the first cumulative entry reaching the target
    ensures key != 0 && Sorted(cdf) && (exists i :: 0 <= i < |cdf| && AbsReal(val) - a / 2.0 <= cdf[i]) ==>
              var m := Magnitude(key) - 1;
              AbsReal(val) - a / 2.0 <= cdf[m] && forall i :: 0 <= i < m ==> cdf[i] < AbsReal(val) - a / 2.0
    // miss: every cumulative entry is below the target, so the clamp gives magnitude 1
    ensures key != 0 && Sorted(cdf) && (forall i :: 0 <= i < |cdf| ==> cdf[i] < AbsReal(val) - a / 2.0) ==>
              Magnitude(key) == 1
  {
    if AbsReal(val) <= a / 2.0 then 0
    else
      var index := FindInVector(cdf, AbsReal(val) - a / 2.0);
      if val > 0.0 then index + 1 else -(index + 1)
  }

  /** Draws of opposite sign land on opposite keys. */
  lemma GaussianKeyOdd(val: real, a: real, cdf: seq<real>)
    requires val != 0.0
    ensures GaussianKey(-val, a, cdf) == -GaussianKey(val, a, cdf)
  {
    assert AbsReal(-val) == AbsReal(val);
  }

  /** The key `GenerateBinaryVector` looks up for the random byte `b`. */
  function BinaryKey(b: uint8): (key: int)
    ensures key == 0 || key == 1
    ensures key == 1 <==> b % 2 == 1
  {
    (b % 2) as int
  }

  /** The key `GenerateZOVector` looks up for the random byte `b`. */
  function ZOKey(b: uint8): (key: int)
    ensures -1 <= key <= 1
    ensures key == 1 <==> b % 4 == 0
    ensures key == -1 <==> b % 4 == 1
  {
    var val := b % 4;
    if val == 0 then 1
    else if val == 1 then -1
    else 0
  }

  /** How many of the byte values `0..n-1` the mapping `key` sends to `k`. */
  function CountKey(key: uint8 -> int, k: int, n: nat): (c: nat)
    requires n <= 0x100
    ensures c <= n
  {
    if n == 0 then 0
    else CountKey(key, k, n - 1) + (if key((n - 1) as uint8) == k then 1 else 0)
  }

  lemma {:induction false} BinaryCounts(m: nat)
    requires 2 * m <= 0x100
    ensures CountKey(BinaryKey, 0, 2 * m) == m
    ensures CountKey(BinaryKey, 1, 2 * m) == m
  {
    if m > 0 {
      BinaryCounts(m - 1);
      assert BinaryKey((2 * m - 2) as uint8) == 0;
      assert BinaryKey((2 * m - 1) as uint8) == 1;
    }
  }

  /** Every random byte is a fair coin: half of the byte values give each bit. */
  lemma BinaryDistribution()
    ensures CountKey(BinaryKey, 0, 0x100) == 0x80
    ensures CountKey(BinaryKey, 1, 0x100) == 0x80
  {
    BinaryCounts(0x80);
  }

  /** The number of byte values among `0..4m-1` the ternary mapping sends to `k`. */
  lemma {:induction false} ZOCounts(m: nat, k: int)
    requires 4 * m <= 0x100
    requires -1 <= k <= 1
    ensures CountKey(ZOKey, k, 4 * m) == if k == 0 then 2 * m else m
  {
    if m > 0 {
      ZOCounts(m - 1, k);
      var n := 4 * m;
      assert ZOKey((n - 4) as uint8) == 1;
      assert ZOKey((n - 3) as uint8) == -1;
      assert ZOKey((n - 2) as uint8) == 0;
      assert ZOKey((n - 1) as uint8) == 0;
      assert CountKey(ZOKey, k, n - 2) == CountKey(ZOKey, k, n - 4) + (if k == 0 then 0 else 1);
    }
  }

  /** Of the 256 byte values, 128 give 0, 64 give +1 and 64 give -1. */
  lemma ZODistribution()
    ensures CountKey(ZOKey, 0, 0x100) == 0x80
    ensures CountKey(ZOKey, 1, 0x100) == 0x40
    ensures CountKey(ZOKey, -1, 0x100) == 0x40
  {
    ZOCounts(0x40, 0);
    ZOCounts(0x40, 1);
    ZOCounts(0x40, -1);
  }

  newtype int32 = x: int | -0x8000_0000 <= x < 0x8000_0000
  newtype uint32 = x: int | 0 <= x < 0x1_0000_0000

  /** `pow(2.0, 32) - 1.0`, the scale of a 32-bit draw. */
  const MAX_UINT32: real := 4294967295.0

  /**
   * The scaling of a 32-bit draw as the generator performs it: the draw is
   * read as a signed `int`, so every scaled value lies between just below -1
   * and just below 0, and the negative draws are exactly those below -0.5.
   */
  function SignedDrawValue(r: int32): (v: real)
    ensures -1.0 - 0.5 / MAX_UINT32 <= v <= -0.5 / MAX_UINT32
    ensures r < 0 <==> v < -0.5
  {
    r as real / MAX_UINT32 - 0.5
  }

  /** As written, no draw ever selects a positive offset. */
  lemma SignedDrawNeverPositive(r: int32, a: real, cdf: seq<real>)
    ensures GaussianKey(SignedDrawValue(r), a, cdf) <= 0
  {
  }

  /**
   * As written, every negative draw overshoots the cumulative table: when the
   * table's last entry is at most the mass `(1 - a) / 2` of the positive
   * offsets, the search misses and the draw selects offset -1.
   */
  lemma SignedDrawMiss(r: int32, a: real, cdf: seq<real>)
    requires r < 0 && a <= 1.0 && Sorted(cdf)
    requires |cdf| > 0 ==> cdf[|cdf| - 1] <= (1.0 - a) / 2.0
    ensures GaussianKey(SignedDrawValue(r), a, cdf) == -1
  {
    var v := SignedDrawValue(r);
    assert AbsReal(v) - a / 2.0 > (1.0 - a) / 2.0;
    assert forall i :: 0 <= i < |cdf| ==> cdf[i] < AbsReal(v) - a / 2.0;
  }

  /** With no cumulative entries and all mass at zero, a negative draw selects offset -1. */
  lemma SignedDrawDegenerate(r: int32)
    requires r < 0
    ensures GaussianKey(SignedDrawValue(r), 1.0, []) == -1
  {
    SignedDrawMiss(r, 1.0, []);
  }

  /** The scaling of an unsigned 32-bit draw: values from -0.5 to 0.5, never 0. */
  function UnsignedDrawValue(r: uint32): (v: real)
    ensures -0.5 <= v <= 0.5 && v != 0.0
  {
    r as real / MAX_UINT32 - 0.5
  }

  /** Complementary unsigned draws scale to opposite values. */
  lemma UnsignedDrawComplement(r: uint32)
    ensures UnsignedDrawValue(0xFFFF_FFFF - r) == -UnsignedDrawValue(r)
  {
  }

  /**
   * With unsigned draws the sampler is symmetric: the draw `r` and its
   * complement select opposite offsets, so each offset is hit by as many
   * draws as its negation.
   */
  lemma UnsignedDrawSymmetric(r: uint32, a: real, cdf: seq<real>)
    ensures GaussianKey(UnsignedDrawValue(0xFFFF_FFFF - r), a, cdf) == -GaussianKey(UnsignedDrawValue(r), a, cdf)
  {
    UnsignedDrawComplement(r);
    GaussianKeyOdd(UnsignedDrawValue(r), a, cdf);
  }

  /** With no cumulative entries and all mass at zero, every unsigned draw selects offset 0. */
  lemma UnsignedDrawDegenerate(r: uint32)
    ensures GaussianKey(UnsignedDrawValue(r), 1.0, []) == 0
  {
  }

  /** With unsigned draws a positive offset is reachable whenever the point mass is below 1. */
  lemma UnsignedDrawReachesPositive(a: real, cdf: seq<real>)
    requires a < 1.0
    ensures GaussianKey(UnsignedDrawValue(0xFFFF_FFFF), a, cdf) > 0
  {
  }
}
