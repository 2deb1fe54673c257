/**
 * What the payload format guarantees: strings and tag lists written the way the decoder
 * expects read back unchanged, header labels only ever sit under the four label names,
 * every decoded exercise has visible text, and the two end-of-data escapes of decode.
 */
module PayloadLaws {
  import opened Common
  import opened Text
  import opened LinkedMaps
  import opened BitReading
  import opened EliasDelta
  import opened PayloadFormat

  // ---------------------------------------------------------------------------
  // Fixed-width fields
  // ---------------------------------------------------------------------------

  /** The w-bit field holding v, most significant bit first. */
  function FixedBits(v: nat, w: nat): (r: seq<bool>)
    requires v < Pow2(w)
    ensures |r| == w && BitsValue(r) == v
  {
    if w == 0 then []
    else
      BitsValueSnoc(FixedBits(v / 2, w - 1), v % 2 == 1);
      FixedBits(v / 2, w - 1) + [v % 2 == 1]
  }

  /** The bits from position p on begin with e. */
  predicate HoldsAt(bits: seq<bool>, p: nat, e: seq<bool>)
  {
    p + |e| <= |bits| && bits[p..p + |e|] == e
  }

  /** Bits that begin with a + b begin with a, and b follows it. */
  lemma HoldsAtParts(bits: seq<bool>, p: nat, a: seq<bool>, b: seq<bool>)
    requires HoldsAt(bits, p, a + b)
    ensures HoldsAt(bits, p, a) && HoldsAt(bits, p + |a|, b)
  {
    assert bits[p..p + |a|] == bits[p..p + |a + b|][..|a|];
    assert bits[p + |a|..p + |a| + |b|] == bits[p..p + |a + b|][|a|..];
  }

  /** A field of at most 8 bits reads back as its value. */
  lemma ReadFixed(bits: seq<bool>, p: nat, v: nat, w: nat)
    requires 1 <= w <= 8 && v < Pow2(w)
    requires HoldsAt(bits, p, FixedBits(v, w))
    ensures Read(bits, p, w) == Done(v, p + w)
  {
    SmallReadsDoNotWrap(bits, p, w);
  }

  // ---------------------------------------------------------------------------
  // Strings
  // ---------------------------------------------------------------------------

  /** The number of distinct codes of width w, for the two string widths. */
  function CodeLimit(w: nat): nat
  {
    if w == 7 then 128 else 256
  }

  lemma CodeLimitIsPow2(w: nat)
    requires w == 7 || w == 8
    ensures CodeLimit(w) == Pow2(w)
  {
    Pow2Values();
  }

  /** s can be written with w-bit codes: every code fits, and none is the end code 3. */
  predicate Encodable(s: string, w: nat)
  {
    forall i :: 0 <= i < |s| ==> s[i] as int < CodeLimit(w) && s[i] as int != EndOfString
  }

  /** The codes of s, then the end code. */
  function CharsEncode(s: string, w: nat): seq<bool>
    requires (w == 7 || w == 8) && Encodable(s, w)
  {
    CodeLimitIsPow2(w);
    if s == [] then FixedBits(EndOfString, w)
    else FixedBits(s[0] as nat, w) + CharsEncode(s[1..], w)
  }

  /** decodeAsciiString and decodeUtf8String read back any encodable text. */
  lemma {:induction false} CharsRoundTrip(bits: seq<bool>, p: nat, s: string, w: nat)
    requires (w == 7 || w == 8) && Encodable(s, w)
    requires HoldsAt(bits, p, CharsEncode(s, w))
    ensures CharsAt(bits, p, w) == Done(s, p + |CharsEncode(s, w)|)
    decreases |s|
  {
    CodeLimitIsPow2(w);
    if s == [] {
      ReadFixed(bits, p, EndOfString, w);
    } else {
      EncodableTail(s, w);
      var c := s[0] as nat;
      var rest := CharsEncode(s[1..], w);
      assert CharsEncode(s, w) == FixedBits(c, w) + rest;
      HoldsAtParts(bits, p, FixedBits(c, w), rest);
      ReadFixed(bits, p, c, w);
      CharsAtCons(bits, p, w, c);
      CharsRoundTrip(bits, p + w, s[1..], w);
      assert |CharsEncode(s, w)| == w + |rest|;
      HeadAndTail(s);
    }
  }

  /** A code that is not the end code starts the text read from p. */
  lemma CharsAtCons(bits: seq<bool>, p: nat, w: nat, c: nat)
    requires (w == 7 || w == 8) && c != EndOfString && c < 256
    requires Read(bits, p, w) == Done(c, p + w)
    ensures CharsAt(bits, p, w) == Prepend([c as char], CharsAt(bits, p + w, w))
  {
    ReadBound(bits, p, w);
  }

  /** The first code of an encodable text fits and is not the end code; the rest stays encodable. */
  lemma EncodableTail(s: string, w: nat)
    requires s != [] && Encodable(s, w)
    ensures s[0] as int < CodeLimit(w) && s[0] as int != EndOfString
    ensures Encodable(s[1..], w)
  {
    forall i | 0 <= i < |s[1..]| ensures s[1..][i] as int < CodeLimit(w) && s[1..][i] as int != EndOfString {
      assert s[1..][i] == s[i + 1];
    }
  }

  /** A string as decodeString expects it: selector 00 and 7-bit codes, or 01 and 8-bit codes. */
  function StringEncode(s: string, utf8: bool): seq<bool>
    requires Encodable(s, if utf8 then 8 else 7)
  {
    Pow2Values();
    FixedBits(if utf8 then 1 else 0, 2) + CharsEncode(s, if utf8 then 8 else 7)
  }

  /** decodeString reads back any encodable text, in either encoding. */
  lemma StringRoundTrip(bits: seq<bool>, p: nat, s: string, utf8: bool)
    requires Encodable(s, if utf8 then 8 else 7)
    requires HoldsAt(bits, p, StringEncode(s, utf8))
    ensures StringAt(bits, p) == Done(s, p + |StringEncode(s, utf8)|)
  {
    var w := if utf8 then 8 else 7;
    var sel: nat := if utf8 then 1 else 0;
    assert sel < Pow2(2) by { Pow2Values(); }
    HoldsAtParts(bits, p, FixedBits(sel, 2), CharsEncode(s, w));
    ReadFixed(bits, p, sel, 2);
    CharsRoundTrip(bits, p + 2, s, w);
  }

  // ---------------------------------------------------------------------------
  // Tags
  // ---------------------------------------------------------------------------

  function TagCode(t: Tag): (c: nat)
    ensures 1 <= c <= 4 && TagOf(c) == Some(t)
  {
    match t
    case Minus => 1
    case Plus => 2
    case Star => 3
    case MoreOperands => 4
  }

  /** The 3-bit codes of a tag list, without the 000 that ends it. */
  function TagsEncode(tags: seq<Tag>): (e: seq<bool>)
    ensures |e| == 3 * |tags|
  {
    Pow2Values();
    if tags == [] then [] else FixedBits(TagCode(tags[0]), 3) + TagsEncode(tags[1..])
  }

  lemma HeadAndTail<T>(s: seq<T>)
    requires |s| > 0
    ensures [s[0]] + s[1..] == s
  {
  }

  /** The end marker 000. */
  function TagsEnd(): (e: seq<bool>)
    ensures |e| == 3
  {
    Pow2Values();
    FixedBits(0, 3)
  }

  /**
   * decodeTags reads back a tag list in order and stops in front of the 000 after it,
   * leaving that marker unread.
   */
  lemma {:induction false} TagsRoundTrip(bits: seq<bool>, p: nat, tags: seq<Tag>)
    requires HoldsAt(bits, p, TagsEncode(tags) + TagsEnd())
    ensures TagsAt(bits, p) == Done(tags, p + |TagsEncode(tags)|)
    decreases |tags|
  {
    assert Pow2(3) == 8 by { Pow2Values(); }
    if tags == [] {
      assert TagsEncode(tags) + TagsEnd() == TagsEnd();
      HoldsAtParts(bits, p, TagsEnd(), []);
      ReadFixed(bits, p, 0, 3);
    } else {
      var code := FixedBits(TagCode(tags[0]), 3);
      var rest := TagsEncode(tags[1..]) + TagsEnd();
      assert TagsEncode(tags) + TagsEnd() == code + rest;
      HoldsAtParts(bits, p, code, rest);
      ReadFixed(bits, p, TagCode(tags[0]), 3);
      TagsRoundTrip(bits, p + 3, tags[1..]);
      assert TagsAt(bits, p) == Prepend(TagsOf(TagCode(tags[0])), TagsAt(bits, p + 3));
      assert TagsOf(TagCode(tags[0])) == [tags[0]];
      assert |TagsEncode(tags)| == 3 + |TagsEncode(tags[1..])|;
      HeadAndTail(tags);
    }
  }

  // ---------------------------------------------------------------------------
  // Header
  // ---------------------------------------------------------------------------

  /** Header maps as a Kotlin map keeps them: labels under the four names, no key twice. */
  predicate WellFormedHeader(h: Header)
  {
    && (forall k :: k in Keys(h.labels) ==> k in LabelNames)
    && UniqueKeys(h.labels)
    && UniqueKeys(h.generators)
  }

  /** decodeHeader keeps its maps well formed. */
  lemma {:induction false} HeaderWellFormed(bits: seq<bool>, p: nat, h: Header)
    requires WellFormedHeader(h)
    ensures HeaderAt(bits, p, h).Done? ==> WellFormedHeader(HeaderAt(bits, p, h).value)
    decreases |bits| - p
  {
    match Read(bits, p, 2)
    case Failed(_, _) =>
    case Done(marker, q) =>
      if marker == 1 {
        match LabelAt(bits, q)
        case Failed(_, _) =>
        case Done(l, q') =>
          PutKeys(h.labels, l.0, l.1);
          PutUnique(h.labels, l.0, l.1);
          HeaderWellFormed(bits, q', h.(labels := Put(h.labels, l.0, l.1)));
      } else if marker == 2 {
        match Read(bits, q, 4)
        case Failed(_, _) =>
        case Done(kind, q') =>
          if kind != 0 {
            HeaderWellFormed(bits, q', h);
          } else {
            match RandIntAt(bits, q')
            case Failed(_, _) =>
            case Done(g, q'') =>
              PutUnique(h.generators, g.0, (g.1, g.2));
              HeaderWellFormed(bits, q'', h.(generators := Put(h.generators, g.0, (g.1, g.2))));
          }
      }
  }

  /** The marker 11 makes decodeHeader throw right after it. */
  lemma InvalidMarkerThrows(bits: seq<bool>, p: nat, h: Header)
    requires p + 2 <= |bits| && bits[p] && bits[p + 1]
    ensures HeaderAt(bits, p, h) == Failed(InvalidHeaderMarker(3), p + 2)
  {
    assert bits[p..p + 2] == [true, true];
    assert [true, true][..1] == [true];
    assert BitsValue([true, true]) == 3;
  }

  /** A payload whose first marker, the low two bits of byte 2, is 11 is rejected. */
  lemma DecodeRejectsMarker3(bytes: seq<Byte>)
    requires |bytes| >= 3 && bytes[2] % 4 == 3
    ensures Decode(bytes) == Err(InvalidHeaderMarker(3))
  {
    LowBitsOfByte2(bytes);
    InvalidMarkerThrows(BitsOf(bytes), StartOffsetBits, Header([], []));
    HeaderFailureEscapes(BitsOf(bytes));
  }

  /** Bits 22 and 23 of the payload are the two low bits of byte 2. */
  lemma LowBitsOfByte2(bytes: seq<Byte>)
    requires |bytes| >= 3 && bytes[2] % 4 == 3
    ensures |BitsOf(bytes)| >= 24 && BitsOf(bytes)[22] && BitsOf(bytes)[23]
  {
    BitsOfIndex(bytes, 2, 6);
    BitsOfIndex(bytes, 2, 7);
    assert Pow2(1) == 2 && Pow2(0) == 1;
    LowBitsOfThree(bytes[2]);
  }

  lemma LowBitsOfThree(b: Byte)
    requires b % 4 == 3
    ensures (b / 2) % 2 == 1 && (b / 1) % 2 == 1
  {
    var q := b / 4;
    assert b == 4 * q + 3;
    assert b / 2 == 2 * q + 1;
  }

  /** An error in the header phase is what decode throws. */
  lemma HeaderFailureEscapes(bits: seq<bool>)
    requires HeaderAt(bits, StartOffsetBits, Header([], [])).Failed?
    ensures DecodeBits(bits).Failed?
    ensures DecodeBits(bits).error == HeaderAt(bits, StartOffsetBits, Header([], [])).error
  {
  }

  /** Fewer than three bytes cannot hold the first marker at bit 22. */
  lemma ShortPayloadFails(bytes: seq<Byte>)
    requires |bytes| < 3
    ensures Decode(bytes) == Err(EndOfData)
  {
  }

  // ---------------------------------------------------------------------------
  // Solution section
  // ---------------------------------------------------------------------------

  /**
   * The peek for the 01 marker is outside the try block: with exactly one bit left at the
   * top of the loop, decodeSolutionSection throws, and so does decode.
   */
  lemma SolutionPeekEscapes(bits: seq<bool>, p: nat, sols: seq<Solution>)
    requires p < |bits| < p + 2
    ensures SolutionSectionAt(bits, p, sols) == Failed(EndOfData, |bits|)
  {
  }

  /**
   * The peek for the closing 00 never throws: the loop stops either with no data left or
   * with at least two bits left, so the section fails only where the loop does.
   */
  lemma SolutionEndPeekSafe(bits: seq<bool>, p: nat, sols: seq<Solution>)
    ensures SolutionSectionAt(bits, p, sols).Failed? <==> SolutionLoop(bits, p, sols).Failed?
    ensures SolutionSectionAt(bits, p, sols).Failed? ==> SolutionSectionAt(bits, p, sols) == Failed(EndOfData, |bits|)
  {
    match SolutionLoop(bits, p, sols)
    case Failed(_, _) =>
    case Done(_, q) =>
      if q < |bits| {
        assert q + 2 <= |bits|;
      }
  }

  // ---------------------------------------------------------------------------
  // Integer constants
  // ---------------------------------------------------------------------------

  /**
   * The text of a constant with a positive value is never "0" or "-0": an optional '-'
   * exactly when the sign bit is set, then decimal digits that do not start with '0'.
   */
  lemma ConstantTextNonZero(negative: bool, v: int)
    requires v >= 1
    ensures var t := ConstantText(negative, v); var d := if negative then 1 else 0;
      && |t| > d && (t[0] == '-' <==> negative) && t[d] != '0'
      && forall k :: d <= k < |t| ==> IsDigit(t[k])
  {
    NatToStringLead(v);
    var t := ConstantText(negative, v);
    var d := if negative then 1 else 0;
    assert t[d..] == NatToString(v);
    forall k | d <= k < |t| ensures IsDigit(t[k]) {
      assert t[k] == NatToString(v)[k - d];
    }
  }

  /**
   * An integer constant (kind 00) whose delta code has at most four leading zeros is
   * the signed text of a positive Int: never "0", and with '-' exactly under a 1 sign bit.
   */
  lemma ConstantNeverZero(bits: seq<bool>, p: nat)
    requires p + 3 <= |bits| && !bits[p] && !bits[p + 1]
    requires ZeroRun(bits, p + 3).Done? && ZeroRun(bits, p + 3).value <= 4
    requires ConstantAt(bits, p).Done?
    ensures DeltaDecodeAt(bits, p + 3).Done? && 1 <= DeltaDecodeAt(bits, p + 3).value < TWO31
    ensures ConstantAt(bits, p).value == Text(ConstantText(bits[p + 2], DeltaDecodeAt(bits, p + 3).value))
    ensures ConstantAt(bits, p).value.text != "0" && ConstantAt(bits, p).value.text != "-0"
  {
    KindZero(bits, p);
    DeltaDecodePositive(bits, p + 3);
    var v := DeltaDecodeAt(bits, p + 3).value;
    ConstantTextNonZero(bits[p + 2], v);
    var t := ConstantText(bits[p + 2], v);
    if bits[p + 2] {
      assert t[1] != '0';
    }
  }

  /** Two 0 bits read as the kind 0. */
  lemma KindZero(bits: seq<bool>, p: nat)
    requires p + 2 <= |bits| && !bits[p] && !bits[p + 1]
    ensures Read(bits, p, 2) == Done(0, p + 2)
  {
    SmallReadsDoNotWrap(bits, p, 2);
    AllZeroValue(bits[p..p + 2]);
  }

  /** With five leading zeros the delta value wraps: the constant under a 0 sign bit is "0". */
  lemma ConstantWrapsToZero(bits: seq<bool>, p: nat)
    requires p + 3 <= |bits| && !bits[p] && !bits[p + 1] && !bits[p + 2]
    requires WrapExample(bits, p + 3)
    ensures ConstantAt(bits, p) == Done(Text("0"), p + 46)
  {
    KindZero(bits, p);
    DeltaWrapsToZero(bits, p + 3);
    assert DigitChar(0) == '0';
    assert ConstantText(false, 0) == "0";
  }

  /** The value -2^31 of a wrapped code under a 1 sign bit gives a constant with two '-'. */
  lemma ConstantDoubleMinus(bits: seq<bool>, p: nat)
    requires p + 3 <= |bits| && !bits[p] && !bits[p + 1] && bits[p + 2]
    requires MinExample(bits, p + 3)
    ensures ConstantAt(bits, p) == Done(Text("-" + IntToString(-TWO31)), p + 45)
    ensures ConstantAt(bits, p).value.text[..2] == "--"
  {
    KindZero(bits, p);
    DeltaWrapsNegative(bits, p + 3);
  }

  // ---------------------------------------------------------------------------
  // Expressions and exercises
  // ---------------------------------------------------------------------------

  /** decodeExpression returns trimmed text. */
  lemma ExpressionTrimmed(bits: seq<bool>, p: nat)
    ensures Trim(ExpressionAt(bits, p).0) == ExpressionAt(bits, p).0
  {
    TrimIdempotent(ExpressionLoop(bits, p, "").0);
  }

  /** Every exercise that decode returns has text with a visible character. */
  lemma DecodedExercisesVisible(bytes: seq<Byte>)
    ensures Decode(bytes).Ok? ==> AllVisible(Decode(bytes).value.exercises)
  {
    var none: seq<Exercise> := [];
    assert AllVisible(none);
    var d := DecodeFrom(BitsOf(bytes), StartOffsetBits, Header([], []), [], none);
    assert d.Done? ==> AllVisible(d.value.exercises);
  }

}
