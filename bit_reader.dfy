/**
 * The MSB-first bit cursor over the scanned payload (BitReader in QRBinaryDecoder.kt),
 * together with the bit-level view of a byte buffer that the decoders are specified on.
 */
module BitReading {

  /** A payload byte, as its unsigned value. */
  type Byte = x: int | 0 <= x < 256

  /** The ways a read from the payload can fail. */
  datatype DecodeError =
    | EndOfData                          // EOFException from readBit
    | InvalidHeaderMarker(marker: int)   // IllegalArgumentException from decodeHeader
    | InvalidStringEncoding(selector: int) // IllegalArgumentException from decodeString

  datatype Result<T> = Ok(value: T) | Err(error: DecodeError)

  /**
   * The outcome of a decoder run from a bit position: the value and the position after
   * it, or the error and the position the cursor was left at.
   */
  datatype Step<T> = Done(value: T, next: nat) | Failed(error: DecodeError, at: nat)

  /** The method result r, with the cursor left at pos, is what the step s describes. */
  predicate Agrees<T(==)>(r: Result<T>, pos: nat, s: Step<T>)
  {
    match s
    case Done(v, q) => r == Ok(v) && pos == q
    case Failed(e, a) => r == Err(e) && pos == a
  }

  function Pow2(n: nat): (r: nat)
    ensures r >= 1
  {
    if n == 0 then 1 else 2 * Pow2(n - 1)
  }

  lemma {:induction false} Pow2Monotone(m: nat, n: nat)
    requires m <= n
    ensures Pow2(m) <= Pow2(n)
  {
    if m < n {
      Pow2Monotone(m, n - 1);
    }
  }

  lemma {:induction false} Pow2Add(m: nat, n: nat)
    ensures Pow2(m + n) == Pow2(m) * Pow2(n)
    decreases n
  {
    if n > 0 {
      Pow2Add(m, n - 1);
    }
  }

  lemma Pow2Values()
    ensures Pow2(1) == 2 && Pow2(2) == 4 && Pow2(3) == 8 && Pow2(4) == 16 && Pow2(5) == 32
    ensures Pow2(7) == 128 && Pow2(8) == 256 && Pow2(31) == 0x8000_0000 && Pow2(32) == 0x1_0000_0000
  {
    assert Pow2(8) == 256;
    Pow2Add(8, 8);
    Pow2Add(16, 8);
    Pow2Add(24, 7);
    Pow2Add(31, 1);
  }

  /**
   * Bit k of b, counting from the most significant (k = 0). The source reads
   * (b.toInt() ushr (7 - k)) and 1 on the sign-extended byte; for k < 8 that is the
   * same bit of the unsigned value.
   */
  function BitOfByte(b: Byte, k: nat): bool
    requires k < 8
  {
    (b / Pow2(7 - k)) % 2 == 1
  }

  /** The eight bits of one byte, most significant first. */
  function ByteBits(b: Byte): (r: seq<bool>)
    ensures |r| == 8
  {
    [BitOfByte(b, 0), BitOfByte(b, 1), BitOfByte(b, 2), BitOfByte(b, 3),
     BitOfByte(b, 4), BitOfByte(b, 5), BitOfByte(b, 6), BitOfByte(b, 7)]
  }

  /** The payload as the sequence of its bits, each byte most significant bit first. */
  function BitsOf(bytes: seq<Byte>): (bits: seq<bool>)
    ensures |bits| == 8 * |bytes|
  {
    if bytes == [] then [] else ByteBits(bytes[0]) + BitsOf(bytes[1..])
  }

  /** Bit 8j + k of the payload is bit k of byte j. */
  lemma {:induction false} BitsOfIndex(bytes: seq<Byte>, j: nat, k: nat)
    requires j < |bytes| && k < 8
    ensures BitsOf(bytes)[8 * j + k] == BitOfByte(bytes[j], k)
  {
    if j > 0 {
      BitsOfIndex(bytes[1..], j - 1, k);
    }
  }

  /** The unsigned value of a bit string read most significant bit first. */
  function BitsValue(s: seq<bool>): nat
  {
    if s == [] then 0 else 2 * BitsValue(s[..|s| - 1]) + (if s[|s| - 1] then 1 else 0)
  }

  /** n bits hold a value below 2^n. */
  lemma {:induction false} BitsValueBound(s: seq<bool>)
    ensures BitsValue(s) < Pow2(|s|)
  {
    if s != [] {
      BitsValueBound(s[..|s| - 1]);
    }
  }

  lemma BitsValueSnoc(s: seq<bool>, b: bool)
    ensures BitsValue(s + [b]) == 2 * BitsValue(s) + (if b then 1 else 0)
  {
    assert (s + [b])[..|s|] == s;
  }

  /** Reading a leading bit first: it weighs 2^(number of bits after it). */
  lemma {:induction false} BitsValueCons(b: bool, s: seq<bool>)
    ensures BitsValue([b] + s) == (if b then Pow2(|s|) else 0) + BitsValue(s)
    decreases |s|
  {
    if s != [] {
      var t := s[..|s| - 1];
      var c := s[|s| - 1];
      assert [b] + s == ([b] + t) + [c];
      BitsValueSnoc([b] + t, c);
      BitsValueSnoc(t, c);
      BitsValueCons(b, t);
    }
  }

  const TWO32: int := 0x1_0000_0000
  const TWO31: int := 0x8000_0000

  /**
   * An integer as Kotlin's 32-bit Int holds it: two's complement wrap-around, that is
   * adding or subtracting 2^32 until the value lies in -2^31 .. 2^31 - 1.
   */
  function Wrap32(x: int): (r: int)
    ensures -TWO31 <= r < TWO31
    ensures -TWO31 <= x < TWO31 ==> r == x
    decreases if x < 0 then -2 * x else 2 * x + 1
  {
    if x < -TWO31 then Wrap32(x + TWO32)
    else if x >= TWO31 then Wrap32(x - TWO32)
    else x
  }

  /** The same wrap-around stated with the remainder modulo 2^32. */
  lemma {:induction false} WrapMod(x: int)
    ensures Wrap32(x) == (if x % TWO32 < TWO31 then x % TWO32 else x % TWO32 - TWO32)
    decreases if x < 0 then -2 * x else 2 * x + 1
  {
    if x < -TWO31 {
      WrapMod(x + TWO32);
      ModAddMultiple(x, 1);
    } else if x >= TWO31 {
      WrapMod(x - TWO32);
      ModAddMultiple(x, -1);
    } else if x < 0 {
      assert x % TWO32 == x + TWO32;
    }
  }

  lemma ModAddMultiple(x: int, k: int)
    ensures (x + k * TWO32) % TWO32 == x % TWO32
  {
    var q, m := x / TWO32, x % TWO32;
    assert x + k * TWO32 == (q + k) * TWO32 + m;
  }

  lemma WrapCongruent(x: int, k: int)
    ensures Wrap32(x + k * TWO32) == Wrap32(x)
  {
    WrapMod(x);
    WrapMod(x + k * TWO32);
    ModAddMultiple(x, k);
  }

  /** (v shl 1) or bit on an Int is 2v + bit taken modulo 2^32. */
  lemma WrapShift(x: int, bit: int)
    requires bit == 0 || bit == 1
    ensures Wrap32(2 * Wrap32(x) + bit) == Wrap32(2 * x + bit)
  {
    var w := Wrap32(x);
    WrapMod(x);
    var m := x % TWO32;
    var q := x / TWO32;
    assert x == q * TWO32 + m;
    if m < TWO31 {
      assert 2 * w + bit == 2 * x + bit + (-2 * q) * TWO32;
      WrapCongruent(2 * x + bit, -2 * q);
    } else {
      assert 2 * w + bit == 2 * x + bit + (-2 * q - 2) * TWO32;
      WrapCongruent(2 * x + bit, -2 * q - 2);
    }
  }

  /** The position the cursor is left at by a read that ran out of data. */
  function EndPos(len: nat, p: nat): nat
  {
    if p < len then len else p
  }

  /** Reading n bits at p: their unsigned value, or end of data; reading no bits never fails. */
  function ReadAt(bits: seq<bool>, p: nat, n: nat): (s: Step<nat>)
    ensures s.Done? ==> s.next == p + n && (n == 0 || p + n <= |bits|)
    ensures s.Failed? <==> n > 0 && p + n > |bits|
    ensures s.Failed? ==> s.error == EndOfData && s.at == EndPos(|bits|, p)
  {
    if n == 0 then Done(0, p)
    else if p + n <= |bits| then Done(BitsValue(bits[p..p + n]), p + n)
    else Failed(EndOfData, EndPos(|bits|, p))
  }

  /**
   * The cursor of QRBinaryDecoder.kt: a byte index and a bit index into that byte.
   * Its position is 8 * bytePos + bitPos; reads fail once bytePos reaches the end.
   */
  class BitReader {
    const bytes: seq<Byte>
    var bytePos: int
    var bitPos: int

    ghost predicate Valid()
      reads this
    {
      0 <= bytePos && 0 <= bitPos < 8
    }

    function Pos(): nat
      reads this
      requires Valid()
    {
      8 * bytePos + bitPos
    }

    ghost function Bits(): seq<bool>
    {
      BitsOf(bytes)
    }

    constructor (bytes: seq<Byte>, startOffsetBits: nat)
      ensures this.bytes == bytes
      ensures Valid() && Pos() == startOffsetBits
    {
      this.bytes := bytes;
      bytePos := startOffsetBits / 8;
      bitPos := startOffsetBits % 8;
    }

    /** At least one more bit can be read. */
    function HasRemaining(): (b: bool)
      reads this
      requires Valid()
      ensures b <==> Pos() < |Bits()|
    {
      bytePos < |bytes|
    }

    method ReadBit() returns (r: Result<bool>)
      requires Valid()
      modifies this
      ensures Valid()
      ensures old(Pos()) < |Bits()| ==> r == Ok(Bits()[old(Pos())]) && Pos() == old(Pos()) + 1
      ensures old(Pos()) >= |Bits()| ==> r == Err(EndOfData) && Pos() == old(Pos())
    {
      if bytePos >= |bytes| {
        return Err(EndOfData);
      }
      var bit := (bytes[bytePos] / Pow2(7 - bitPos)) % 2;
      BitsOfIndex(bytes, bytePos, bitPos);
      bitPos := bitPos + 1;
      if bitPos == 8 {
        bitPos := 0;
        bytePos := bytePos + 1;
      }
      r := Ok(bit == 1);
    }

    /** Reads n bits MSB-first into an Int; 32 bits can come back negative. */
    method ReadBits(n: nat) returns (r: Result<int>)
      requires Valid() && 1 <= n <= 32
      modifies this
      ensures Valid()
      ensures Agrees(r, Pos(), StepToInt32(ReadAt(Bits(), old(Pos()), n)))
    {
      ghost var p0 := Pos();
      ghost var bits := Bits();
      var value := 0;
      var k := 0;
      while k < n
        invariant Valid() && k <= n && Pos() == p0 + k
        invariant k > 0 ==> Pos() <= |bits|
        invariant k == 0 ==> value == 0
        invariant k > 0 ==> value == ShiftIn(0, bits[p0..p0 + k])
      {
        var b := ReadBit();
        if b.Err? {
          assert Pos() == EndPos(|bits|, p0);
          return Err(EndOfData);
        }
        ShiftInNext(bits, p0, k, 0, value, b.value);
        value := Wrap32(2 * value + if b.value then 1 else 0);
        k := k + 1;
      }
      ReadAtShifted(bits, p0, n, value);
      r := Ok(value);
    }

    /** readBits(n) and then put the cursor back; a failed peek leaves it at the end. */
    method PeekBits(n: nat) returns (r: Result<int>)
      requires Valid() && 1 <= n <= 32
      modifies this
      ensures Valid()
      ensures old(Pos()) + n <= |Bits()| ==>
        r.Ok? && Pos() == old(Pos()) && StepToInt32(ReadAt(Bits(), old(Pos()), n)) == Done(r.value, old(Pos()) + n)
      ensures old(Pos()) + n > |Bits()| ==> Pos() == EndPos(|Bits()|, old(Pos())) && r == Err(EndOfData)
    {
      var savedByte, savedBit := bytePos, bitPos;
      r := ReadBits(n);
      if r.Err? {
        return;
      }
      bytePos, bitPos := savedByte, savedBit;
    }

    /** Reads and discards n bits. */
    method SkipBits(n: nat) returns (r: Result<()>)
      requires Valid()
      modifies this
      ensures Valid()
      ensures Agrees(r, Pos(), StepToUnit(ReadAt(Bits(), old(Pos()), n)))
    {
      ghost var p0 := Pos();
      var k := 0;
      while k < n
        invariant Valid() && k <= n && Pos() == p0 + k
        invariant k > 0 ==> Pos() <= |Bits()|
      {
        var b := ReadBit();
        if b.Err? {
          assert Pos() == EndPos(|Bits()|, p0);
          return Err(EndOfData);
        }
        k := k + 1;
      }
      r := Ok(());
    }
  }

  /** The Int accumulator after (acc shl 1) or bit, for each bit of s in turn. */
  function ShiftIn(acc: int, s: seq<bool>): int
  {
    if s == [] then acc
    else Wrap32(2 * ShiftIn(acc, s[..|s| - 1]) + (if s[|s| - 1] then 1 else 0))
  }

  /** One more bit of the payload shifted into the accumulator. */
  lemma ShiftInStep(acc: int, bits: seq<bool>, p: nat, k: nat)
    requires p + k < |bits|
    ensures ShiftIn(acc, bits[p..p + k + 1])
      == Wrap32(2 * ShiftIn(acc, bits[p..p + k]) + (if bits[p + k] then 1 else 0))
  {
    assert bits[p..p + k + 1][..k] == bits[p..p + k];
  }

  /** The accumulator of a read loop after its next bit, b at position p0 + k. */
  lemma ShiftInNext(bits: seq<bool>, p0: nat, k: nat, acc0: int, value: int, b: bool)
    requires p0 + k < |bits| && b == bits[p0 + k]
    requires k == 0 ==> value == acc0
    requires k > 0 ==> value == ShiftIn(acc0, bits[p0..p0 + k])
    ensures Wrap32(2 * value + (if b then 1 else 0)) == ShiftIn(acc0, bits[p0..p0 + (k + 1)])
  {
    ShiftInStep(acc0, bits, p0, k);
    if k == 0 {
      assert ShiftIn(acc0, bits[p0..p0]) == acc0;
    }
  }

  /** A completed n-bit read loop holds what ReadAt describes, as a Kotlin Int. */
  lemma ReadAtShifted(bits: seq<bool>, p0: nat, n: nat, value: int)
    requires 1 <= n && p0 + n <= |bits| && value == ShiftIn(0, bits[p0..p0 + n])
    ensures StepToInt32(ReadAt(bits, p0, n)) == Done(value, p0 + n)
  {
    ShiftInValue(0, bits[p0..p0 + n]);
  }

  /**
   * Shifting the bits of s into a non-negative Int acc gives acc followed by those
   * bits, as a number, reduced to 32 bits.
   */
  lemma {:induction false} ShiftInValue(acc: nat, s: seq<bool>)
    requires acc < TWO31
    ensures ShiftIn(acc, s) == Wrap32(acc * Pow2(|s|) + BitsValue(s))
  {
    if s != [] {
      var t := s[..|s| - 1];
      var bit := if s[|s| - 1] then 1 else 0;
      ShiftInValue(acc, t);
      var x := acc * Pow2(|t|) + BitsValue(t);
      var w := ShiftIn(acc, t);
      assert ShiftIn(acc, s) == Wrap32(2 * w + bit);
      assert w == Wrap32(x);
      WrapShift(x, bit);
      assert Wrap32(2 * w + bit) == Wrap32(2 * x + bit);
      AppendedValue(acc, s);
      assert 2 * x + bit == acc * Pow2(|s|) + BitsValue(s);
    } else {
      assert acc * Pow2(|s|) + BitsValue(s) == acc;
    }
  }

  /** Appending a bit to s doubles the number acc followed by s and adds the bit. */
  lemma AppendedValue(acc: nat, s: seq<bool>)
    requires s != []
    ensures acc * Pow2(|s|) + BitsValue(s)
      == 2 * (acc * Pow2(|s| - 1) + BitsValue(s[..|s| - 1])) + (if s[|s| - 1] then 1 else 0)
  {
    MulDouble(acc, Pow2(|s| - 1));
  }

  lemma MulDouble(a: int, b: int)
    ensures a * (2 * b) == 2 * (a * b)
  {
  }

  /** A successful read seen as a Kotlin Int. */
  function StepToInt32(s: Step<nat>): Step<int>
  {
    match s
    case Done(v, q) => Done(Wrap32(v), q)
    case Failed(e, a) => Failed(e, a)
  }

  function StepToUnit<T>(s: Step<T>): Step<()>
  {
    match s
    case Done(_, q) => Done((), q)
    case Failed(e, a) => Failed(e, a)
  }

  /** Reads of at most 31 bits never wrap: readBits returns their unsigned value. */
  lemma SmallReadsDoNotWrap(bits: seq<bool>, p: nat, n: nat)
    requires n <= 31
    ensures var s := ReadAt(bits, p, n); s.Done? ==> s.value < Pow2(n) && StepToInt32(s) == Done(s.value as int, s.next)
  {
    Pow2Monotone(n, 31);
    Pow2Values();
    if n > 0 && p + n <= |bits| {
      BitsValueBound(bits[p..p + n]);
    }
  }
}
