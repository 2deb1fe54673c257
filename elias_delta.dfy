/**
 * Elias-delta integer decoding (eliasDeltaDecode) and its zig-zag signed variant
 * (eliasDeltaDecodeSigned) from QRBinaryDecoder.kt, with the matching encoders used to
 * state the round trips.
 */
module EliasDelta {
  import opened BitReading

  /**
   * The number of 0 bits before the first 1 bit from p, and the position just after
   * that 1 bit; end of data when no 1 bit follows.
   */
  function ZeroRun(bits: seq<bool>, p: nat): (s: Step<nat>)
    ensures s.Done? ==> s.next == p + s.value + 1 <= |bits|
    ensures s.Failed? ==> s == Failed(EndOfData, EndPos(|bits|, p))
    decreases |bits| - p
  {
    if p >= |bits| then Failed(EndOfData, p)
    else if bits[p] then Done(0, p + 1)
    else match ZeroRun(bits, p + 1)
      case Done(z, q) => Done(z + 1, q)
      case Failed(e, a) => Failed(e, a)
  }

  /**
   * Starting from 1, shifts in n bits from p: the value of a 1 followed by them, before
   * any 32-bit wrap-around.
   */
  function OnePrefixedAt(bits: seq<bool>, p: nat, n: nat): Step<nat>
  {
    if n == 0 then Done(1, p)
    else if p + n <= |bits| then Done(Pow2(n) + BitsValue(bits[p..p + n]), p + n)
    else Failed(EndOfData, EndPos(|bits|, p))
  }

  /**
   * eliasDeltaDecode: a run of z zeros and a 1 give the length prefix; z more bits
   * complete gamma; gamma - 1 more bits follow the implicit leading 1 of the result.
   * A gamma that is not above 1 (after 32-bit wrap-around) reads nothing more.
   */
  function DeltaDecodeAt(bits: seq<bool>, p: nat): (s: Step<int>)
  {
    match ZeroRun(bits, p)
    case Failed(e, a) => Failed(e, a)
    case Done(zeros, q) =>
      match StepToInt32(OnePrefixedAt(bits, q, zeros))
      case Failed(e, a) => Failed(e, a)
      case Done(gamma, q') =>
        StepToInt32(OnePrefixedAt(bits, q', if gamma > 1 then gamma - 1 else 0))
  }

  /** (z ushr 1) xor -(z and 1) on a 32-bit Int. */
  function ZigZagDecode(z: int): (v: int)
    ensures -TWO31 <= v < TWO31
  {
    var u := z % TWO32;
    if u % 2 == 0 then u / 2 else -(u / 2) - 1
  }

  /** eliasDeltaDecodeSigned: a 0 flag bit is the value 0, a 1 flag a zig-zag delta code. */
  function SignedAt(bits: seq<bool>, p: nat): (s: Step<int>)
    ensures s.Done? ==> s.next > p
  {
    if p >= |bits| then Failed(EndOfData, p)
    else if !bits[p] then Done(0, p + 1)
    else match DeltaDecodeAt(bits, p + 1)
      case Done(z, q) => Done(ZigZagDecode(z), q)
      case Failed(e, a) => Failed(e, a)
  }

  /** An Elias-delta decode moves forward, and fails no earlier than where it started. */
  lemma DeltaDecodeAdvances(bits: seq<bool>, p: nat)
    ensures DeltaDecodeAt(bits, p).Done? ==> DeltaDecodeAt(bits, p).next > p
    ensures DeltaDecodeAt(bits, p).Failed? ==> DeltaDecodeAt(bits, p).at >= p
  {
  }

  lemma SignedAdvances(bits: seq<bool>, p: nat)
    ensures SignedAt(bits, p).Done? ==> SignedAt(bits, p).next > p
    ensures SignedAt(bits, p).Failed? ==> SignedAt(bits, p).at >= p
  {
    DeltaDecodeAdvances(bits, p + 1);
  }

  method ReadOnePrefixed(reader: BitReader, n: nat) returns (r: Result<int>)
    requires reader.Valid()
    modifies reader
    ensures reader.Valid()
    ensures Agrees(r, reader.Pos(), StepToInt32(OnePrefixedAt(reader.Bits(), old(reader.Pos()), n)))
  {
    ghost var bits := reader.Bits();
    ghost var p0 := reader.Pos();
    var acc := 1;
    var k := 0;
    while k < n
      invariant reader.Valid() && k <= n && reader.Pos() == p0 + k
      invariant k > 0 ==> reader.Pos() <= |bits|
      invariant k == 0 ==> acc == 1
      invariant k > 0 ==> acc == ShiftIn(1, bits[p0..p0 + k])
    {
      var b := reader.ReadBit();
      if b.Err? {
        assert reader.Pos() == EndPos(|bits|, p0);
        return Err(EndOfData);
      }
      ShiftInNext(bits, p0, k, 1, acc, b.value);
      acc := Wrap32(2 * acc + if b.value then 1 else 0);
      k := k + 1;
    }
    OnePrefixedShifted(bits, p0, n, acc);
    r := Ok(acc);
  }

  /** A completed loop of ReadOnePrefixed holds what OnePrefixedAt describes, as an Int. */
  lemma OnePrefixedShifted(bits: seq<bool>, p0: nat, n: nat, acc: int)
    requires n == 0 ==> acc == 1
    requires n > 0 ==> p0 + n <= |bits| && acc == ShiftIn(1, bits[p0..p0 + n])
    ensures StepToInt32(OnePrefixedAt(bits, p0, n)) == Done(acc, p0 + n)
  {
    if n > 0 {
      ShiftInValue(1, bits[p0..p0 + n]);
    }
  }

  method EliasDeltaDecode(reader: BitReader) returns (r: Result<int>)
    requires reader.Valid()
    modifies reader
    ensures reader.Valid()
    ensures Agrees(r, reader.Pos(), DeltaDecodeAt(reader.Bits(), old(reader.Pos())))
  {
    var run := CountZeros(reader);
    if run.Err? {
      return Err(run.error);
    }
    var zeros := run.value;
    var gamma := ReadOnePrefixed(reader, zeros);
    if gamma.Err? {
      return gamma;
    }
    r := ReadOnePrefixed(reader, if gamma.value > 1 then gamma.value - 1 else 0);
  }

  /** while (reader.readBit() == 0) zeros++ */
  method CountZeros(reader: BitReader) returns (r: Result<nat>)
    requires reader.Valid()
    modifies reader
    ensures reader.Valid()
    ensures Agrees(r, reader.Pos(), ZeroRun(reader.Bits(), old(reader.Pos())))
  {
    ghost var bits := reader.Bits();
    ghost var p0 := reader.Pos();
    var zeros := 0;
    while true
      invariant reader.Valid() && reader.Pos() == p0 + zeros
      invariant zeros > 0 ==> reader.Pos() <= |bits|
      invariant ZeroRun(bits, p0) == ShiftRun(ZeroRun(bits, reader.Pos()), zeros)
      decreases |bits| - reader.Pos()
    {
      ghost var p := reader.Pos();
      var b := reader.ReadBit();
      if b.Err? {
        return Err(EndOfData);
      }
      if b.value {
        return Ok(zeros);
      }
      ZeroRunSkip(bits, p, zeros);
      zeros := zeros + 1;
    }
  }

  lemma ZeroRunSkip(bits: seq<bool>, p: nat, k: nat)
    requires p < |bits| && !bits[p]
    ensures ShiftRun(ZeroRun(bits, p), k) == ShiftRun(ZeroRun(bits, p + 1), k + 1)
  {
  }

  /** The run counted from a later start, with k zeros already behind it. */
  function ShiftRun(s: Step<nat>, k: nat): Step<nat>
  {
    match s
    case Done(z, q) => Done(z + k, q)
    case Failed(e, a) => Failed(e, a)
  }

  method EliasDeltaDecodeSigned(reader: BitReader) returns (r: Result<int>)
    requires reader.Valid()
    modifies reader
    ensures reader.Valid()
    ensures Agrees(r, reader.Pos(), SignedAt(reader.Bits(), old(reader.Pos())))
  {
    var flag := reader.ReadBit();
    if flag.Err? {
      return Err(EndOfData);
    }
    if !flag.value {
      return Ok(0);
    }
    var z := EliasDeltaDecode(reader);
    if z.Err? {
      return z;
    }
    r := Ok(ZigZagDecode(z.value));
  }

  // ---------------------------------------------------------------------------
  // Encoders, and what decoding them gives back.
  // ---------------------------------------------------------------------------

  /** The binary digits of v >= 1, most significant first, without leading zeros. */
  function NatBits(v: nat): (r: seq<bool>)
    requires v >= 1
    ensures |r| >= 1 && r[0]
    ensures BitsValue(r) == v
    decreases v
  {
    if v == 1 then [true]
    else
      var h := NatBits(v / 2);
      BitsValueSnoc(h, v % 2 == 1);
      h + [v % 2 == 1]
  }

  function Zeros(k: nat): (r: seq<bool>)
    ensures |r| == k && forall i :: 0 <= i < k ==> !r[i]
  {
    if k == 0 then [] else [false] + Zeros(k - 1)
  }

  /** The Elias-delta code of v >= 1: the Elias-gamma code of its length, then its bits after the first. */
  function DeltaEncode(v: nat): (e: seq<bool>)
    requires v >= 1
  {
    var n := NatBits(v);
    var g := NatBits(|n|);
    Zeros(|g| - 1) + g + n[1..]
  }

  function ZigZagEncode(v: int): (z: nat)
  {
    if v >= 0 then 2 * v else -2 * v - 1
  }

  /** The code eliasDeltaDecodeSigned reads: 0 alone, or a 1 flag and the zig-zag delta code. */
  function SignedEncode(v: int): (e: seq<bool>)
  {
    if v == 0 then [false] else [true] + DeltaEncode(ZigZagEncode(v))
  }

  lemma {:induction false} ZeroRunOf(bits: seq<bool>, p: nat, z: nat)
    requires p + z < |bits| && bits[p + z]
    requires forall i :: p <= i < p + z ==> !bits[i]
    ensures ZeroRun(bits, p) == Done(z, p + z + 1)
    decreases z
  {
    if z > 0 {
      ZeroRunOf(bits, p + 1, z - 1);
    }
  }

  lemma OnePrefixedOf(bits: seq<bool>, p: nat, t: seq<bool>)
    requires p + |t| <= |bits| && bits[p..p + |t|] == t
    ensures OnePrefixedAt(bits, p, |t|) == Done(Pow2(|t|) + BitsValue(t), p + |t|)
  {
  }

  /** A code word that starts with a 1: that bit weighs 2^(its length - 1). */
  lemma LeadingOne(g: seq<bool>)
    requires |g| >= 1 && g[0]
    ensures Pow2(|g| - 1) + BitsValue(g[1..]) == BitsValue(g)
  {
    BitsValueCons(true, g[1..]);
    assert [true] + g[1..] == g;
  }

  lemma Pow2Below(a: nat, b: nat)
    requires Pow2(a) < Pow2(b)
    ensures a < b
  {
    if a >= b {
      Pow2Monotone(b, a);
    }
  }

  /** Shifting in the k bits after the leading 1 of g rebuilds g's value m. */
  lemma OnePrefixedCode(bits: seq<bool>, p: nat, g: seq<bool>, k: nat, m: nat)
    requires |g| == k + 1 && g[0] && BitsValue(g) == m
    requires p + k <= |bits| && bits[p..p + k] == g[1..]
    ensures OnePrefixedAt(bits, p, k) == Done(m, p + k)
  {
    var t := g[1..];
    OnePrefixedOf(bits, p, t);
    var x := Pow2(k) + BitsValue(t);
    assert OnePrefixedAt(bits, p, k) == Done(x, p + k);
    LeadingOne(g);
  }

  /** A piece of an embedded code word sits at the matching offset of the payload. */
  lemma SliceOfEmbedded(bits: seq<bool>, p: nat, e: seq<bool>, i: nat, j: nat)
    requires p + |e| <= |bits| && bits[p..p + |e|] == e && i <= j <= |e|
    ensures bits[p + i..p + j] == e[i..j]
  {
    forall k | 0 <= k < j - i ensures bits[p + i..p + j][k] == e[i..j][k] {
      assert bits[p + i + k] == bits[p..p + |e|][i + k];
    }
  }

  /** Where the parts of a code word laid out as z zeros, g and the tail of n sit. */
  lemma CodeLayout(e: seq<bool>, g: seq<bool>, n: seq<bool>, z: nat)
    requires |g| == z + 1 && |n| >= 1 && e == Zeros(z) + g + n[1..]
    ensures |e| == 2 * z + |n| && e[z] == g[0]
    ensures forall i :: 0 <= i < z ==> !e[i]
    ensures e[z + 1..2 * z + 1] == g[1..] && e[2 * z + 1..] == n[1..]
  {
    ThreeParts(Zeros(z), g, n[1..], e);
    forall i | 0 <= i < z ensures !e[i] {
      assert e[i] == e[..z][i];
    }
    assert e[z] == e[z..2 * z + 1][0];
    forall j | 0 <= j < z ensures e[z + 1..2 * z + 1][j] == g[1..][j] {
      assert e[z + 1 + j] == e[z..2 * z + 1][1 + j];
    }
  }

  /** The pieces of a concatenation of three sequences. */
  lemma ThreeParts<T>(a: seq<T>, b: seq<T>, c: seq<T>, e: seq<T>)
    requires e == a + b + c
    ensures |e| == |a| + |b| + |c|
    ensures e[..|a|] == a && e[|a|..|a| + |b|] == b && e[|a| + |b|..] == c
  {
    assert e[..|a|] == a;
    assert e[|a|..|a| + |b|] == b;
    assert e[|a| + |b|..] == c;
  }

  lemma ZeroRunOfEmbedded(bits: seq<bool>, p: nat, e: seq<bool>, z: nat)
    requires p + |e| <= |bits| && bits[p..p + |e|] == e
    requires z < |e| && e[z] && forall i :: 0 <= i < z ==> !e[i]
    ensures ZeroRun(bits, p) == Done(z, p + z + 1)
  {
    forall i | p <= i < p + z ensures !bits[i] {
      assert bits[i] == bits[p..p + |e|][i - p];
    }
    assert bits[p + z] == bits[p..p + |e|][z];
    ZeroRunOf(bits, p, z);
  }

  /**
   * The three phases of eliasDeltaDecode on a code word laid out as z zeros, a length g
   * of z + 1 bits starting with 1, and the tail of a value n whose bit count is g's value.
   */
  lemma DeltaPhasesEmbedded(bits: seq<bool>, p: nat, e: seq<bool>, g: seq<bool>, n: seq<bool>, z: nat)
    returns (len: nat, q1: nat, q2: nat)
    requires |g| == z + 1 && g[0] && |n| >= 1 && n[0]
    requires BitsValue(g) == |n|
    requires |e| == 2 * z + |n| && e[z]
    requires forall i :: 0 <= i < z ==> !e[i]
    requires e[z + 1..2 * z + 1] == g[1..] && e[2 * z + 1..] == n[1..]
    requires p + |e| <= |bits| && bits[p..p + |e|] == e
    ensures len == |n| && ZeroRun(bits, p) == Done(z, q1)
    ensures OnePrefixedAt(bits, q1, z) == Done(len, q2)
    ensures OnePrefixedAt(bits, q2, len - 1) == Done(BitsValue(n), p + |e|)
  {
    len := |n|;
    q1, q2 := p + z + 1, p + 2 * z + 1;
    ZeroRunOfEmbedded(bits, p, e, z);
    SliceOfEmbedded(bits, p, e, z + 1, 2 * z + 1);
    OnePrefixedCode(bits, q1, g, z, len);
    SliceOfEmbedded(bits, p, e, 2 * z + 1, |e|);
    OnePrefixedCode(bits, q2, n, len - 1, BitsValue(n));
  }

  /** A value below 2^k has at most k binary digits. */
  lemma {:induction false} NatBitsLength(v: nat, k: nat)
    requires 1 <= v < Pow2(k)
    ensures |NatBits(v)| <= k
    decreases v
  {
    if v > 1 {
      assert k > 0;
      NatBitsLength(v / 2, k - 1);
    }
  }

  /** A value below 2^31 has at most 31 binary digits. */
  lemma NatBitsShort(v: nat)
    requires 1 <= v < TWO31
    ensures |NatBits(v)| <= 31
  {
    Pow2Values();
    NatBitsLength(v, 31);
  }

  /** Every v in 1 .. 2^31 - 1 survives encoding and eliasDeltaDecode, wherever it sits. */
  lemma DeltaRoundTrip(bits: seq<bool>, p: nat, v: nat)
    requires 1 <= v < TWO31
    requires p + |DeltaEncode(v)| <= |bits| && bits[p..p + |DeltaEncode(v)|] == DeltaEncode(v)
    ensures DeltaDecodeAt(bits, p) == Done(v, p + |DeltaEncode(v)|)
  {
    var e := DeltaEncode(v);
    var n := NatBits(v);
    var g := NatBits(|n|);
    assert e == Zeros(|g| - 1) + g + n[1..];
    NatBitsShort(v);
    DeltaDecodeEmbedded(bits, p, e, g, n);
  }

  /** eliasDeltaDecode reads back the value n of a code word laid out as DeltaEncode does. */
  lemma DeltaDecodeEmbedded(bits: seq<bool>, p: nat, e: seq<bool>, g: seq<bool>, n: seq<bool>)
    requires |g| >= 1 && g[0] && |n| >= 1 && n[0]
    requires BitsValue(g) == |n| && |n| <= 31 && BitsValue(n) < TWO31
    requires e == Zeros(|g| - 1) + g + n[1..]
    requires p + |e| <= |bits| && bits[p..p + |e|] == e
    ensures DeltaDecodeAt(bits, p) == Done(BitsValue(n), p + |e|)
  {
    var z := |g| - 1;
    CodeLayout(e, g, n, z);
    var len, q1, q2 := DeltaPhasesEmbedded(bits, p, e, g, n, z);
    DeltaDecodeOf(bits, p, z, len, BitsValue(n), q1, q2, p + |e|);
  }

  /** eliasDeltaDecode put together from its three phases. */
  lemma DeltaDecodeOf(bits: seq<bool>, p: nat, z: nat, gamma: nat, v: nat, q1: nat, q2: nat, q3: nat)
    requires ZeroRun(bits, p) == Done(z, q1)
    requires OnePrefixedAt(bits, q1, z) == Done(gamma, q2) && 1 <= gamma < TWO31
    requires OnePrefixedAt(bits, q2, gamma - 1) == Done(v, q3) && v < TWO31
    ensures DeltaDecodeAt(bits, p) == Done(v, q3)
  {
  }

  lemma ZigZagRoundTrip(v: int)
    requires -0x4000_0000 <= v < 0x4000_0000
    ensures ZigZagEncode(v) < TWO31
    ensures ZigZagDecode(ZigZagEncode(v)) == v
    ensures v != 0 ==> ZigZagEncode(v) >= 1
  {
  }

  /** Every v in -2^30 .. 2^30 - 1 survives encoding and eliasDeltaDecodeSigned. */
  lemma SignedRoundTrip(bits: seq<bool>, p: nat, v: int)
    requires -0x4000_0000 <= v < 0x4000_0000
    requires p + |SignedEncode(v)| <= |bits| && bits[p..p + |SignedEncode(v)|] == SignedEncode(v)
    ensures SignedAt(bits, p) == Done(v, p + |SignedEncode(v)|)
  {
    var e := SignedEncode(v);
    assert bits[p] == e[0];
    if v != 0 {
      ZigZagRoundTrip(v);
      var d := DeltaEncode(ZigZagEncode(v));
      assert bits[p + 1..p + 1 + |d|] == e[1..] == d;
      DeltaRoundTrip(bits, p + 1, ZigZagEncode(v));
    }
  }

  /**
   * With at most four leading zeros the length prefix is at most 31, so the decoded
   * value is a positive Int: no wrap-around happens.
   */
  lemma DeltaDecodePositive(bits: seq<bool>, p: nat)
    requires ZeroRun(bits, p).Done? && ZeroRun(bits, p).value <= 4
    requires DeltaDecodeAt(bits, p).Done?
    ensures 1 <= DeltaDecodeAt(bits, p).value < TWO31
  {
    var z := ZeroRun(bits, p).value;
    var q := ZeroRun(bits, p).next;
    var gamma := OnePrefixedBounded(bits, q, z);
    assert gamma < 32 by {
      Pow2Monotone(z + 1, 5);
      Pow2Values();
    }
    assert StepToInt32(OnePrefixedAt(bits, q, z)) == Done(gamma, q + z);
    var count: nat := if gamma > 1 then gamma - 1 else 0;
    assert DeltaDecodeAt(bits, p) == StepToInt32(OnePrefixedAt(bits, q + z, count));
    var v := OnePrefixedBounded(bits, q + z, count);
    assert v < TWO31 by {
      Pow2Monotone(count + 1, 31);
      Pow2Values();
    }
    DeltaDecodeOf(bits, p, z, gamma, v, q, q + z, q + z + count);
  }

  /**
   * With a 1 flag and at most four leading zeros in the delta code, the signed value is
   * never 0: zig-zag maps the positive Ints 1 .. 2^31 - 1 onto -2^30 .. 2^30 - 1 without 0.
   */
  lemma SignedNonZero(bits: seq<bool>, p: nat)
    requires p < |bits| && bits[p]
    requires ZeroRun(bits, p + 1).Done? && ZeroRun(bits, p + 1).value <= 4
    requires SignedAt(bits, p).Done?
    ensures SignedAt(bits, p).value != 0
    ensures -0x4000_0000 <= SignedAt(bits, p).value < 0x4000_0000
  {
    DeltaDecodePositive(bits, p + 1);
    var z := DeltaDecodeAt(bits, p + 1).value;
    assert SignedAt(bits, p).value == ZigZagDecode(z);
    ZigZagNonZero(z);
  }

  /** Zig-zag decoding maps 1 .. 2^31 - 1 onto -2^30 .. 2^30 - 1 without 0. */
  lemma ZigZagNonZero(z: int)
    requires 1 <= z < TWO31
    ensures ZigZagDecode(z) != 0 && -0x4000_0000 <= ZigZagDecode(z) < 0x4000_0000
  {
    assert z % TWO32 == z;
  }

  /**
   * A delta code with five leading zeros at p: the length prefix 100001 gives gamma 33,
   * and the 32 bits after the implicit 1 of the value are all 0.
   */
  predicate WrapExample(bits: seq<bool>, p: nat)
  {
    p + 43 <= |bits| && forall i :: p <= i < p + 43 ==> bits[i] == (i == p + 5 || i == p + 10)
  }

  /**
   * A delta code with five leading zeros at p: the length prefix 100000 gives gamma 32,
   * and the 31 bits after the implicit 1 of the value are all 0.
   */
  predicate MinExample(bits: seq<bool>, p: nat)
  {
    p + 42 <= |bits| && forall i :: p <= i < p + 42 ==> bits[i] == (i == p + 5)
  }

  /**
   * Five leading zeros are past what DeltaDecodePositive covers: the value 2^32 wraps to
   * the Int 0, so the unsigned decode gives 0, and so does the signed one under a 1 flag.
   */
  lemma DeltaWrapsToZero(bits: seq<bool>, p: nat)
    requires WrapExample(bits, p)
    ensures ZeroRun(bits, p) == Done(5, p + 6)
    ensures DeltaDecodeAt(bits, p) == Done(0, p + 43)
    ensures p >= 1 && bits[p - 1] ==> SignedAt(bits, p - 1) == Done(0, p + 43)
  {
    ZeroRunOf(bits, p, 5);
    Pow2Values();
    var g := bits[p + 6..p + 11];
    AllZeroValue(g[..4]);
    assert BitsValue(g) == 1;
    assert OnePrefixedAt(bits, p + 6, 5) == Done(33, p + 11);
    AllZeroValue(bits[p + 11..p + 43]);
    assert OnePrefixedAt(bits, p + 11, 32) == Done(TWO32, p + 43);
    WrapCongruent(0, 1);
  }

  /**
   * Five leading zeros again: the value 2^31 wraps to the Int -2^31, so the unsigned
   * decode gives a negative value.
   */
  lemma DeltaWrapsNegative(bits: seq<bool>, p: nat)
    requires MinExample(bits, p)
    ensures ZeroRun(bits, p) == Done(5, p + 6)
    ensures DeltaDecodeAt(bits, p) == Done(-TWO31, p + 42)
  {
    ZeroRunOf(bits, p, 5);
    Pow2Values();
    AllZeroValue(bits[p + 6..p + 11]);
    assert OnePrefixedAt(bits, p + 6, 5) == Done(32, p + 11);
    AllZeroValue(bits[p + 11..p + 42]);
    assert OnePrefixedAt(bits, p + 11, 31) == Done(TWO31, p + 42);
    WrapMod(TWO31);
  }

  /** Bits that are all 0 have the value 0. */
  lemma {:induction false} AllZeroValue(s: seq<bool>)
    requires forall i :: 0 <= i < |s| ==> !s[i]
    ensures BitsValue(s) == 0
  {
    if s != [] {
      AllZeroValue(s[..|s| - 1]);
    }
  }

  /** Shifting n bits into a leading 1 gives 2^n .. 2^(n+1) - 1. */
  lemma OnePrefixedBounded(bits: seq<bool>, p: nat, n: nat) returns (v: nat)
    requires OnePrefixedAt(bits, p, n).Done?
    ensures v == OnePrefixedAt(bits, p, n).value && Pow2(n) <= v < Pow2(n + 1)
    ensures OnePrefixedAt(bits, p, n) == Done(v, p + n)
  {
    v := OnePrefixedAt(bits, p, n).value;
    if n > 0 {
      BitsValueBound(bits[p..p + n]);
    }
  }
}
