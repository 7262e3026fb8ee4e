/**
 * Bytes, 64-bit limbs and three-limb residues.
 *
 * A residue is the `std::vector<uint64_t>` the generator stores in its table
 * and returns: limbs least significant first, three of them when well formed.
 * Memory is read as little-endian throughout (the generator reinterprets byte
 * buffers as `uint64_t` arrays; the host is assumed to be little-endian).
 */
module Limbs {

  newtype uint8 = x: int | 0 <= x < 0x100
  newtype uint64 = x: int | 0 <= x < 0x1_0000_0000_0000_0000

  /** 2^64, the weight of one limb. */
  const LIMB: nat := 0x1_0000_0000_0000_0000
  /** Number of bytes in one limb. */
  const LIMB_BYTES: nat := 8
  /** Number of bytes in one residue: three limbs of eight bytes. */
  const RESIDUE_BYTES: nat := 24

  type Residue = seq<uint64>

  function Pow256(n: nat): (p: nat)
    ensures p >= 1
  {
    if n == 0 then 1 else 256 * Pow256(n - 1)
  }

  /** The unsigned integer whose little-endian bytes are `bs`. */
  function LittleEndian(bs: seq<uint8>): (v: nat)
    ensures v < Pow256(|bs|)
  {
    if bs == [] then 0 else bs[0] as nat + 256 * LittleEndian(bs[1..])
  }

  /** The `n` little-endian bytes of `v`, truncated to its low `8 * n` bits. */
  function ToBytes(v: nat, n: nat): (bs: seq<uint8>)
    ensures |bs| == n
  {
    if n == 0 then [] else [(v % 256) as uint8] + ToBytes(v / 256, n - 1)
  }

  lemma {:induction false} LittleEndianToBytes(v: nat, n: nat)
    requires v < Pow256(n)
    ensures LittleEndian(ToBytes(v, n)) == v
  {
    if n > 0 {
      var bs := ToBytes(v, n);
      assert bs[1..] == ToBytes(v / 256, n - 1);
      LittleEndianToBytes(v / 256, n - 1);
    }
  }

  lemma {:induction false} ToBytesLittleEndian(bs: seq<uint8>)
    ensures ToBytes(LittleEndian(bs), |bs|) == bs
  {
    if bs != [] {
      var v := LittleEndian(bs);
      assert v % 256 == bs[0] as nat && v / 256 == LittleEndian(bs[1..]);
      ToBytesLittleEndian(bs[1..]);
    }
  }

  /** Little-endian value of a concatenation: the second part sits above the first. */
  lemma {:induction false} LittleEndianAppend(xs: seq<uint8>, ys: seq<uint8>)
    ensures LittleEndian(xs + ys) == LittleEndian(xs) + Pow256(|xs|) * LittleEndian(ys)
  {
    if xs != [] {
      assert (xs + ys)[1..] == xs[1..] + ys;
      LittleEndianAppend(xs[1..], ys);
      ShiftDistributes(xs[0] as nat, LittleEndian(xs[1..]), Pow256(|xs| - 1), LittleEndian(ys));
    } else {
      assert xs + ys == ys;
    }
  }

  lemma ShiftDistributes(x: int, a: int, p: int, b: int)
    ensures x + 256 * (a + p * b) == (x + 256 * a) + (256 * p) * b
  {
  }

  /** Zero bytes on top leave a little-endian value unchanged. */
  lemma LittleEndianZeroPadded(xs: seq<uint8>, n: nat)
    ensures LittleEndian(xs + seq(n, _ => 0 as uint8)) == LittleEndian(xs)
  {
    LittleEndianAppend(xs, seq(n, _ => 0 as uint8));
    LittleEndianZeros(n);
  }

  lemma {:induction false} LittleEndianZeros(n: nat)
    ensures LittleEndian(seq(n, _ => 0 as uint8)) == 0
  {
    if n > 0 {
      assert seq(n, _ => 0 as uint8)[1..] == seq(n - 1, _ => 0 as uint8);
      LittleEndianZeros(n - 1);
    }
  }

  lemma Pow256Limb()
    ensures Pow256(LIMB_BYTES) == LIMB
  {
  }

  /** The `uint64_t` stored in eight consecutive bytes. */
  function Limb(bs: seq<uint8>): (w: uint64)
    requires |bs| == LIMB_BYTES
    ensures ToBytes(w as nat, LIMB_BYTES) == bs
  {
    Pow256Limb();
    ToBytesLittleEndian(bs);
    LittleEndian(bs) as uint64
  }

  /** The integer a well-formed residue holds. */
  function Value(r: Residue): (v: nat)
    requires |r| == 3
    ensures v < LIMB * LIMB * LIMB
  {
    r[0] as nat + LIMB * r[1] as nat + LIMB * LIMB * r[2] as nat
  }

  /** The three-limb residue holding `n`. */
  function Encode(n: nat): (r: Residue)
    requires n < LIMB * LIMB * LIMB
    ensures |r| == 3 && Value(r) == n
  {
    var m := n / LIMB;
    assert n == n % LIMB + LIMB * m;
    assert m == m % LIMB + LIMB * (m / LIMB);
    [(n % LIMB) as uint64, (m % LIMB) as uint64, (m / LIMB) as uint64]
  }

  /**
   * The external subtraction primitive `asmSubModQ(Z, X, Y)`: Z = X - Y
   * modulo a fixed modulus Q, which here is an explicit parameter `q`.
   */
  function SubModQ(q: nat, x: Residue, y: Residue): (z: Residue)
    requires 0 < q <= LIMB * LIMB * LIMB
    requires |x| == 3 && |y| == 3
    ensures |z| == 3
    ensures Value(z) == (Value(x) - Value(y)) % q
  {
    Encode((Value(x) - Value(y)) % q)
  }

  /** Twenty-four bytes read as three `uint64_t` limbs, lowest first. */
  function Pack(bs: seq<uint8>): (r: Residue)
    requires |bs| == RESIDUE_BYTES
    ensures |r| == 3
    ensures ToBytes(r[0] as nat, LIMB_BYTES) == bs[0..8]
    ensures ToBytes(r[1] as nat, LIMB_BYTES) == bs[8..16]
    ensures ToBytes(r[2] as nat, LIMB_BYTES) == bs[16..24]
  {
    [Limb(bs[0..8]), Limb(bs[8..16]), Limb(bs[16..24])]
  }

  /** The twenty-four bytes of memory a three-limb residue occupies, limb by limb. */
  function Unpack(r: Residue): (bs: seq<uint8>)
    requires |r| == 3
    ensures |bs| == RESIDUE_BYTES
    ensures bs[0..8] == ToBytes(r[0] as nat, LIMB_BYTES)
    ensures bs[8..16] == ToBytes(r[1] as nat, LIMB_BYTES)
    ensures bs[16..24] == ToBytes(r[2] as nat, LIMB_BYTES)
  {
    var b0, b1, b2 := ToBytes(r[0] as nat, 8), ToBytes(r[1] as nat, 8), ToBytes(r[2] as nat, 8);
    assert (b0 + b1 + b2)[8..16] == b1;
    b0 + b1 + b2
  }

  /** The bytes a residue occupies, read little-endian, give back its value. */
  lemma UnpackValue(r: Residue)
    requires |r| == 3
    ensures LittleEndian(Unpack(r)) == Value(r)
  {
    var b0, b1, b2 := ToBytes(r[0] as nat, 8), ToBytes(r[1] as nat, 8), ToBytes(r[2] as nat, 8);
    Pow256Limb();
    LittleEndianToBytes(r[0] as nat, 8);
    LittleEndianToBytes(r[1] as nat, 8);
    LittleEndianToBytes(r[2] as nat, 8);
    LittleEndianAppend(b1, b2);
    LittleEndianAppend(b0, b1 + b2);
    assert Unpack(r) == b0 + (b1 + b2);
  }

  lemma UnpackPack(bs: seq<uint8>)
    requires |bs| == RESIDUE_BYTES
    ensures Unpack(Pack(bs)) == bs
  {
    ToBytesLittleEndian(bs[0..8]);
    ToBytesLittleEndian(bs[8..16]);
    ToBytesLittleEndian(bs[16..24]);
    assert bs == bs[0..8] + bs[8..16] + bs[16..24];
  }

  lemma PackUnpack(r: Residue)
    requires |r| == 3
    ensures Pack(Unpack(r)) == r
  {
    var bs := Unpack(r);
    Pow256Limb();
    LittleEndianToBytes(r[0] as nat, 8);
    LittleEndianToBytes(r[1] as nat, 8);
    LittleEndianToBytes(r[2] as nat, 8);
    assert bs[0..8] == ToBytes(r[0] as nat, 8);
    assert bs[8..16] == ToBytes(r[1] as nat, 8);
    assert bs[16..24] == ToBytes(r[2] as nat, 8);
  }

  /** A packed residue holds the 192-bit little-endian integer of its bytes. */
  lemma PackValue(bs: seq<uint8>)
    requires |bs| == RESIDUE_BYTES
    ensures Value(Pack(bs)) == LittleEndian(bs)
  {
    UnpackPack(bs);
    UnpackValue(Pack(bs));
  }
}
