/** Bytes, machine words as bit sequences (least significant bit first), and little-endian fields. */
module Bits {

  type Byte = b: int | 0 <= b < 256

  function Power2(n: nat): (p: nat)
    ensures p > 0
  {
    if n == 0 then 1 else 2 * Power2(n - 1)
  }

  /** The lowest `width` bits of a number. */
  function ToBits(value: nat, width: nat): (r: seq<bool>)
    ensures |r| == width
  {
    if width == 0 then [] else [value % 2 == 1] + ToBits(value / 2, width - 1)
  }

  function FromBits(bits: seq<bool>): nat {
    if bits == [] then 0 else (if bits[0] then 1 else 0) + 2 * FromBits(bits[1..])
  }

  lemma {:induction false} FromToBits(value: nat, width: nat)
    requires value < Power2(width)
    ensures FromBits(ToBits(value, width)) == value
  {
    if width > 0 {
      FromToBits(value / 2, width - 1);
      assert ToBits(value, width)[1..] == ToBits(value / 2, width - 1);
    }
  }

  lemma {:induction false} ToFromBits(bits: seq<bool>)
    ensures FromBits(bits) < Power2(|bits|)
    ensures ToBits(FromBits(bits), |bits|) == bits
  {
    if bits != [] {
      ToFromBits(bits[1..]);
      assert FromBits(bits) / 2 == FromBits(bits[1..]);
    }
  }

  lemma Power2Values()
    ensures Power2(8) == 0x100
    ensures Power2(32) == 0x1_0000_0000
  {
    Power2Add(8, 8);
    Power2Add(16, 16);
  }

  lemma {:induction false} Power2Add(m: nat, n: nat)
    ensures Power2(m + n) == Power2(m) * Power2(n)
  {
    if m > 0 {
      Power2Add(m - 1, n);
    }
  }

  function Zeros(n: nat): (r: seq<bool>)
    ensures |r| == n && forall i :: 0 <= i < n ==> !r[i]
  {
    seq(n, i => false)
  }

  function Xor(a: seq<bool>, b: seq<bool>): (r: seq<bool>)
    requires |a| == |b|
    ensures |r| == |a|
    ensures forall i :: 0 <= i < |a| ==> r[i] == (a[i] != b[i])
  {
    seq(|a|, i requires 0 <= i < |a| => a[i] != b[i])
  }

  // ----- little-endian fields, as `writeUInt16LE` and `writeUInt32LE` lay them out

  function U16(v: nat): (r: seq<Byte>)
    ensures |r| == 2
  {
    [v % 256, v / 256 % 256]
  }

  function U32(v: nat): (r: seq<Byte>)
    ensures |r| == 4
  {
    [v % 256, v / 256 % 256, v / 65536 % 256, v / 16777216 % 256]
  }

  function ReadU16(data: seq<Byte>, at: nat): nat
    requires at + 2 <= |data|
  {
    data[at] as int + 256 * data[at + 1] as int
  }

  function ReadU32(data: seq<Byte>, at: nat): nat
    requires at + 4 <= |data|
  {
    data[at] as int + 256 * data[at + 1] as int + 65536 * data[at + 2] as int + 16777216 * data[at + 3] as int
  }

  lemma ReadBack16(data: seq<Byte>, at: nat, v: nat)
    requires v < 0x1_0000
    requires at + 2 <= |data| && data[at..at + 2] == U16(v)
    ensures ReadU16(data, at) == v
  {
  }

  lemma ReadBack32(data: seq<Byte>, at: nat, v: nat)
    requires v < 0x1_0000_0000
    requires at + 4 <= |data| && data[at..at + 4] == U32(v)
    ensures ReadU32(data, at) == v
  {
    var field := data[at..at + 4];
    assert data[at] == field[0] && data[at + 1] == field[1] && data[at + 2] == field[2] && data[at + 3] == field[3];
    assert v / 65536 == v / 256 / 256 && v / 16777216 == v / 256 / 256 / 256;
  }
}
