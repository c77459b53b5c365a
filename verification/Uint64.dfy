/** db/encoding/uint64.go: unsigned 64-bit integers as eight little-endian bytes. */
module Uint64 {
  import opened Prelude

  /** The `n` low-order base-256 digits of `u`, least significant first. */
  function Digits(u: nat, n: nat): (b: Bytes)
    ensures |b| == n
  {
    if n == 0 then [] else [u % 256] + Digits(u / 256, n - 1)
  }

  /** The number denoted by little-endian digits. */
  function Number(b: Bytes): nat
  {
    if b == [] then 0 else b[0] + 256 * Number(b[1..])
  }

  function Power256(n: nat): nat
  {
    if n == 0 then 1 else 256 * Power256(n - 1)
  }

  lemma {:induction false} NumberOfDigits(u: nat, n: nat)
    requires u < Power256(n)
    ensures Number(Digits(u, n)) == u
  {
    if n > 0 {
      assert u / 256 < Power256(n - 1);
      NumberOfDigits(u / 256, n - 1);
      assert Digits(u, n)[1..] == Digits(u / 256, n - 1);
    }
  }

  lemma {:induction false} DigitsOfNumber(b: Bytes)
    ensures Number(b) < Power256(|b|)
    ensures Digits(Number(b), |b|) == b
  {
    if b != [] {
      DigitsOfNumber(b[1..]);
      assert Number(b) % 256 == b[0] && Number(b) / 256 == Number(b[1..]);
      assert b == [b[0]] + b[1..];
    }
  }

  lemma {:induction false} DigitAt(u: nat, n: nat, i: nat)
    requires i < n
    ensures Power256(i) > 0 && Digits(u, n)[i] == (u / Power256(i)) % 256
    decreases n
  {
    if i > 0 {
      DigitAt(u / 256, n - 1, i - 1);
      DivideTwice(u, 256, Power256(i - 1));
    }
  }

  function ToBytes(u: nat): (b: Bytes)
    requires u < TWO64
    ensures |b| == 8
  {
    Digits(u, 8)
  }

  /** Shorter inputs read as zero; longer ones are read on their first eight bytes. */
  function FromBytes(b: Bytes): (u: nat)
  {
    if |b| < 8 then 0 else Number(b[..8])
  }

  /** The last of eight bytes weighs 2^56. */
  lemma TopByte(b: Bytes)
    requires |b| == 8
    ensures Number(b) >= 0x100_0000_0000_0000 * (b[7] as int)
    ensures b[7] == 0 ==> Number(b) < 0x100_0000_0000_0000
  {
    NumberSplit(b, 7);
    OneByte(b[7..]);
    DigitsOfNumber(b[..7]);
    Power7();
  }

  lemma OneByte(b: Bytes)
    requires |b| == 1
    ensures Number(b) == b[0]
  {
    assert b[1..] == [];
  }

  lemma Power7()
    ensures Power256(7) == 0x100_0000_0000_0000
  {
    assert Power256(4) == 0x1_0000_0000;
  }

  lemma Reassociate(p: nat, n: nat)
    ensures 256 * (p * n) == (256 * p) * n
  {
  }

  lemma {:induction false} NumberSplit(b: Bytes, n: nat)
    requires n <= |b|
    ensures Number(b) == Number(b[..n]) + Power256(n) * Number(b[n..])
    decreases n
  {
    if n > 0 {
      NumberSplit(b[1..], n - 1);
      assert b[1..][..n - 1] == b[..n][1..] && b[1..][n - 1..] == b[n..];
      var low, high := Number(b[..n][1..]), Number(b[n..]);
      assert Number(b[1..]) == low + Power256(n - 1) * high;
      Reassociate(Power256(n - 1), high);
      assert Number(b[..n]) == b[0] + 256 * low;
    } else {
      assert b[..0] == [] && b[0..] == b;
    }
  }

  lemma Power8()
    ensures Power256(8) == TWO64
  {
    assert Power256(4) == 0x1_0000_0000;
    assert Power256(6) == 0x1_0000_0000_0000;
  }

  /** Byte `i` is the digit of weight 256 to the power `i`: little-endian. */
  lemma LittleEndian(u: nat, i: nat)
    requires u < TWO64 && i < 8
    ensures Power256(i) > 0 && ToBytes(u)[i] == (u / Power256(i)) % 256
  {
    DigitAt(u, 8, i);
  }

  /** Every uint64 survives the trip through its bytes, whatever follows them in the buffer. */
  lemma EncodeDecode(u: nat, rest: Bytes)
    requires u < TWO64
    ensures FromBytes(ToBytes(u) + rest) == u
  {
    Power8();
    NumberOfDigits(u, 8);
    assert (ToBytes(u) + rest)[..8] == ToBytes(u);
  }

  /** Every eight-byte buffer is the encoding of the number it decodes to. */
  lemma DecodeEncode(b: Bytes)
    requires |b| == 8
    ensures FromBytes(b) < TWO64
    ensures ToBytes(FromBytes(b)) == b
  {
    Power8();
    DigitsOfNumber(b);
    assert b[..8] == b;
  }
}
