/**
 * myc/protocol/protocol.go: one byte of function code, the payload length as a Base 128
 * Varint (Protocol Buffers encoding specification), and the payload.
 */
module Framing {
  import opened Prelude

  // ---------------------------------------------------------------- varints

  function Uvarint(n: nat): (b: Bytes)
    ensures |b| > 0
  {
    if n < 128 then [n] else [n % 128 + 128] + Uvarint(n / 128)
  }

  function Power128(i: nat): nat
  {
    if i == 0 then 1 else 128 * Power128(i - 1)
  }

  datatype VarintRead = Value(n: nat, rest: Bytes) | NoMoreBytes | Overflow(rest: Bytes)

  /**
   * binary.ReadUvarint after `i` bytes that contributed `x`.  Successive bytes occupy
   * disjoint bits, so the bitwise or of the library is an addition.
   */
  function ReadVarint(b: Bytes, i: nat, x: nat): VarintRead
    decreases |b|
  {
    if b == [] then NoMoreBytes
    else if b[0] < 128 then
      if i > 9 || (i == 9 && b[0] > 1) then Overflow(b[1..])
      else Value(x + b[0] * Power128(i), b[1..])
    else ReadVarint(b[1..], i + 1, (x + (b[0] - 128) * Power128(i)) % TWO64)
  }

  lemma {:induction false} Power128Positive(i: nat)
    ensures Power128(i) > 0
  {
    if i > 0 {
      Power128Positive(i - 1);
    }
  }

  lemma Power128Nine()
    ensures Power128(9) == TWO63 && Power128(10) == 128 * TWO63
  {
    assert Power128(4) == 0x1000_0000;
    assert Power128(7) == 0x2_0000_0000_0000;
  }

  lemma {:induction false} Power128Grows(i: nat, j: nat)
    requires i <= j
    ensures Power128(i) <= Power128(j)
    decreases j - i
  {
    if i < j {
      Power128Grows(i, j - 1);
    }
  }

  /** One digit of a number that fits 64 bits. */
  lemma DigitStep(n: nat, p: nat)
    ensures n * p == (n % 128) * p + (n / 128) * (128 * p)
  {
    assert n == 128 * (n / 128) + n % 128;
    calc {
      n * p;
      (128 * (n / 128) + n % 128) * p;
      128 * (n / 128) * p + (n % 128) * p;
      (n / 128) * (128 * p) + (n % 128) * p;
    }
  }

  lemma TooManyDigits(n: nat, i: nat, x: nat)
    requires i > 9 && n > 0
    ensures x + n * Power128(i) >= TWO64
  {
    Power128Nine();
    Power128Grows(10, i);
    MulAtLeast(n, Power128(i));
  }

  lemma MulAtLeast(n: nat, p: nat)
    requires n > 0
    ensures n * p >= p
  {
  }

  /** What one more byte contributes, and what is left to read. */
  lemma Carry(n: nat, i: nat, x: nat)
    requires n >= 128 && x + n * Power128(i) < TWO64
    ensures var x' := x + (n % 128) * Power128(i);
            && x' >= 0 && x' < TWO64 && x' % TWO64 == x'
            && x' + (n / 128) * Power128(i + 1) == x + n * Power128(i)
  {
    var p := Power128(i);
    DigitStep(n, p);
    Power128Positive(i);
    NonNegative(n % 128, p);
    NonNegative(n / 128, 128 * p);
  }

  lemma NonNegative(a: nat, b: nat)
    ensures a * b >= 0
  {
  }

  lemma FewDigits(n: nat, i: nat, x: nat)
    requires x + n * Power128(i) < TWO64 && n > 0
    ensures i <= 9
  {
    if i > 9 {
      TooManyDigits(n, i, x);
    }
  }

  /** Reading back a written number, whatever follows it. */
  lemma {:induction false} ReadWritten(n: nat, i: nat, x: nat, rest: Bytes)
    requires x + n * Power128(i) < TWO64
    requires i > 0 ==> n > 0
    ensures ReadVarint(Uvarint(n) + rest, i, x) == Value(x + n * Power128(i), rest)
    decreases n
  {
    var b := Uvarint(n) + rest;
    if n < 128 {
      ReadLast(n, i, x, rest);
    } else {
      Carry(n, i, x);
      assert b[0] == n % 128 + 128 && b[1..] == Uvarint(n / 128) + rest;
      var x' := x + (n % 128) * Power128(i);
      assert b[0] - 128 == n % 128;
      assert ReadVarint(b, i, x) == ReadVarint(b[1..], i + 1, x');
      ReadWritten(n / 128, i + 1, x', rest);
    }
  }

  lemma ReadLast(n: nat, i: nat, x: nat, rest: Bytes)
    requires n < 128 && x + n * Power128(i) < TWO64 && (i > 0 ==> n > 0)
    ensures ReadVarint(Uvarint(n) + rest, i, x) == Value(x + n * Power128(i), rest)
  {
    if n > 0 {
      FewDigits(n, i, x);
    }
    LastDigitFits(n, i, x);
    assert (Uvarint(n) + rest)[1..] == rest;
  }

  lemma LastDigitFits(n: nat, i: nat, x: nat)
    requires i <= 9 && x + n * Power128(i) < TWO64
    ensures !(i == 9 && n > 1)
  {
    if i == 9 && n > 1 {
      Power128Nine();
    }
  }

  /** Cut short, a varint is never taken for a number. */
  lemma {:induction false} CutVarint(n: nat, i: nat, x: nat, c: nat)
    requires c < |Uvarint(n)|
    ensures ReadVarint(Uvarint(n)[..c], i, x) == NoMoreBytes
    decreases n
  {
    if c > 0 {
      var b := Uvarint(n)[..c];
      assert b[0] == n % 128 + 128 && b[1..] == Uvarint(n / 128)[..c - 1];
      CutVarint(n / 128, i + 1, (x + (b[0] - 128) * Power128(i)) % TWO64, c - 1);
    }
  }

  // ---------------------------------------------------------------- frames

  const MAX_LENGTH: int := 0x4000_0000

  /**
   * The written form of a number: base-128 digits, least significant first, the high bit set on
   * every byte but the last, and no longer than needed.
   */
  lemma {:induction false} VarintShape(n: nat, i: nat)
    requires i < |Uvarint(n)|
    ensures var b := Uvarint(n);
            && Power128(i) > 0 && b[i] % 128 == (n / Power128(i)) % 128
            && (b[i] >= 128 <==> i < |b| - 1)
            && (i > 0 ==> n >= Power128(i))
    decreases n
  {
    if i > 0 {
      VarintShape(n / 128, i - 1);
      DivideTwice(n, 128, Power128(i - 1));
      assert Uvarint(n)[i] == Uvarint(n / 128)[i - 1];
      if i == 1 {
        assert Power128(1) == 128;
      } else {
        assert n >= 128 * (n / 128) >= 128 * Power128(i - 1);
      }
    }
  }

  /** A frame is its function code, the length of the payload, and the payload. */
  lemma FrameLayout(c: Frame)
    ensures var n := |Uvarint(|c.m|)|;
            && |Pack(c)| == 1 + n + |c.m| && Pack(c)[0] == c.f
            && Pack(c)[1..1 + n] == Uvarint(|c.m|) && Pack(c)[1 + n..] == c.m
  {
  }

  /** fnTypes: the functions a message can carry. */
  predicate Known(f: Byte)
  {
    1 <= f <= 8
  }

  /** A function code and the wire data of its message. */
  datatype Frame = Frame(f: Byte, m: Slice)

  function Pack(c: Frame): Bytes
  {
    [c.f] + Uvarint(|c.m|) + c.m
  }

  datatype Error = EndOfStream | InvalidFunction | VarintOverflow | InvalidLength | ShortRead

  /** `rest` is what is left of the stream, after a failure too. */
  datatype Unpacked = Got(frame: Frame, rest: Bytes) | Bad(error: Error, rest: Bytes)

  function Unpack(b: Bytes): Unpacked
  {
    if b == [] then Bad(EndOfStream, [])
    else if !Known(b[0]) then Bad(InvalidFunction, b[1..])
    else
      match ReadVarint(b[1..], 0, 0)
      case NoMoreBytes => Bad(EndOfStream, [])
      case Overflow(rest) => Bad(VarintOverflow, rest)
      case Value(l, rest) =>
        if l > MAX_LENGTH then Bad(InvalidLength, rest)
        else if |rest| < l then Bad(ShortRead, [])
        else Got(Frame(b[0], rest[..l]), rest[l..])
  }

  lemma PackedLength(c: Frame, rest: Bytes)
    ensures (Pack(c) + rest)[0] == c.f
    ensures ReadVarint((Pack(c) + rest)[1..], 0, 0) == Value(|c.m|, c.m + rest)
  {
    assert (Pack(c) + rest)[1..] == Uvarint(|c.m|) + (c.m + rest);
    ReadWritten(|c.m|, 0, 0, c.m + rest);
  }

  /**
   * A packed frame comes back, with what follows it untouched, if and only if its function is
   * known and its payload is within the limit.
   */
  lemma UnpackPackIff(c: Frame, rest: Bytes)
    ensures Unpack(Pack(c) + rest) == Got(c, rest) <==> 1 <= c.f <= 8 && |c.m| <= 0x4000_0000
  {
    PackedLength(c, rest);
    assert (c.m + rest)[..|c.m|] == c.m && (c.m + rest)[|c.m|..] == rest;
  }

  /** A frame cut anywhere is reported, never taken for a shorter one. */
  lemma TruncationDetected(c: Frame, n: nat)
    requires n < |Pack(c)|
    ensures Unpack(Pack(c)[..n]).Bad?
  {
    var b := Pack(c)[..n];
    var v := Uvarint(|c.m|);
    if n == 0 {
    } else if n <= |v| {
      assert b[1..] == v[..n - 1];
      CutVarint(|c.m|, 0, 0, n - 1);
    } else {
      var part := c.m[..n - 1 - |v|];
      assert b[1..] == v + part;
      ReadWritten(|c.m|, 0, 0, part);
    }
  }

  // ---------------------------------------------------------------- streams of frames

  function PackAll(cs: seq<Frame>): Bytes
  {
    if cs == [] then [] else Pack(cs[0]) + PackAll(cs[1..])
  }

  /** Unpack until the stream is empty or a frame is bad. */
  function UnpackAll(b: Bytes): (seq<Frame>, Bytes)
    decreases |b|
  {
    match Unpack(b)
    case Bad(_, _) => ([], b)
    case Got(c, rest) =>
      if |rest| >= |b| then ([], b) else
        var (cs, left) := UnpackAll(rest);
        ([c] + cs, left)
  }

  /** Any frames packed back to back are unpacked in order with nothing left over. */
  lemma {:induction false} StreamRoundTrip(cs: seq<Frame>)
    requires forall i :: 0 <= i < |cs| ==> Known(cs[i].f) && |cs[i].m| <= MAX_LENGTH
    ensures UnpackAll(PackAll(cs)) == (cs, [])
    decreases |cs|
  {
    if cs != [] {
      StreamRoundTrip(cs[1..]);
      var rest := PackAll(cs[1..]);
      UnpackPackIff(cs[0], rest);
      assert Unpack(PackAll(cs)) == Got(cs[0], rest) && |rest| < |PackAll(cs)|;
      assert cs == [cs[0]] + cs[1..];
    }
  }

  // ---------------------------------------------------------------- the code on a stream

  class InputStream {
    var rest: Bytes

    constructor (data: Bytes)
      ensures rest == data
    {
      rest := data;
    }

    method ReadByte() returns (b: Option<Byte>)
      modifies this
      ensures old(rest) == [] ==> b.None? && rest == []
      ensures old(rest) != [] ==> b == Some(old(rest)[0]) && rest == old(rest)[1..]
    {
      if rest == [] {
        return None;
      }
      b := Some(rest[0]);
      rest := rest[1..];
    }

    /** io.ReadFull consumes what there is even when that is too little. */
    method ReadFull(n: nat) returns (buf: Option<Bytes>)
      modifies this
      ensures n <= |old(rest)| ==> buf == Some(old(rest)[..n]) && rest == old(rest)[n..]
      ensures n > |old(rest)| ==> buf.None? && rest == []
    {
      if n > |rest| {
        rest := [];
        return None;
      }
      buf := Some(rest[..n]);
      rest := rest[n..];
    }

    /** binary.ReadUvarint. */
    method ReadUvarint() returns (r: Option<nat>, overflow: bool)
      modifies this
      ensures match ReadVarint(old(rest), 0, 0)
              case Value(n, left) => r == Some(n) && rest == left && !overflow
              case NoMoreBytes => r.None? && rest == [] && !overflow
              case Overflow(left) => r.None? && rest == left && overflow
    {
      var x: nat, i: nat, p: nat := 0, 0, 1;
      while true
        invariant p == Power128(i)
        invariant ReadVarint(rest, i, x) == ReadVarint(old(rest), 0, 0)
        decreases |rest|
      {
        var b := ReadByte();
        if b.None? {
          return None, false;
        }
        if b.value < 0x80 {
          if i > 9 || (i == 9 && b.value > 1) {
            return None, true;
          }
          return Some(x + b.value * p), false;
        }
        x := (x + (b.value - 0x80) * p) % TWO64;
        i, p := i + 1, 128 * p;
      }
    }
  }

  /** binary.PutUvarint. */
  method PutUvarint(n: nat) returns (buf: Bytes)
    ensures buf == Uvarint(n)
  {
    buf := [];
    var x := n;
    while x >= 0x80
      invariant buf + Uvarint(x) == Uvarint(n)
    {
      assert Uvarint(x) == [x % 128 + 128] + Uvarint(x / 128);
      assert buf + [x % 128 + 128] + Uvarint(x / 128) == buf + Uvarint(x);
      buf := buf + [x % 128 + 128];
      x := x / 128;
    }
    buf := buf + [x];
  }

  class Call {
    var F: Byte
    var M: Slice

    constructor (f: Byte, m: Slice)
      ensures F == f && M == m
    {
      F, M := f, m;
    }

    method PackCall() returns (data: Bytes)
      ensures data == Pack(Frame(F, M))
    {
      var length := PutUvarint(|M|);
      data := [F] + length + M;
    }

    method UnpackCall(input: InputStream) returns (err: Option<Error>)
      modifies this, input
      ensures match Unpack(old(input.rest))
              case Got(c, rest) => err.None? && F == c.f && M == c.m && input.rest == rest
              case Bad(e, rest) => err == Some(e) && input.rest == rest
    {
      var b := input.ReadByte();
      if b.None? {
        return Some(EndOfStream);
      }
      F := b.value;
      if !Known(F) {
        return Some(InvalidFunction);
      }
      var l, overflow := input.ReadUvarint();
      if overflow {
        return Some(VarintOverflow);
      }
      if l.None? {
        return Some(EndOfStream);
      }
      if l.value > MAX_LENGTH {
        return Some(InvalidLength);
      }
      var buf := input.ReadFull(l.value);
      if buf.None? {
        return Some(ShortRead);
      }
      M := buf.value;
      return None;
    }
  }
}
