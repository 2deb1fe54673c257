/**
 * The two helpers of QRScannerScreen.kt that work on the scanned bytes: the eQR format
 * check run before a payload is accepted, and the binary rendering shown to the user.
 */
module QRScanning {
  import opened Text
  import opened BitReading
  import opened PayloadFormat
  import opened PayloadLaws
  import opened BinaryDecoder

  // ---------------------------------------------------------------------------
  // Format check

  /** Why a payload is refused; each stands for one of the source's messages. */
  datatype Rejection =
    | TooShort(size: nat)                 // "QR code data too short ..."
    | NotEducationalFormat(error: DecodeError) // an IllegalArgumentException from decode
    | DecodingFailed(error: DecodeError)  // any other exception from decode
    | NoContent                           // decoded, but every section is empty

  /** EQRValidationResult: valid, or invalid with the reason its message names. */
  datatype Validation = Accepted | Rejected(reason: Rejection)

  /** At least one of the four sections holds something. */
  predicate HasContent(il: IntermediateLanguage)
  {
    il.labels != [] || il.randGenerators != [] || il.solutions != [] || il.exercises != []
  }

  /** The exceptions decode raises as IllegalArgumentException; the end of data is an EOFException. */
  predicate IsIllegalArgument(e: DecodeError)
  {
    e.InvalidHeaderMarker? || e.InvalidStringEncoding?
  }

  /** The verdict of validateEQREducationalFormat on a payload. */
  function ValidationOf(bytes: seq<Byte>): (r: Validation)
    ensures r.Accepted? <==> |bytes| >= 4 && Decode(bytes).Ok? && HasContent(Decode(bytes).value)
    ensures |bytes| < 4 <==> r == Rejected(TooShort(|bytes|))
    ensures r.Rejected? && r.reason.NotEducationalFormat? <==>
      |bytes| >= 4 && Decode(bytes).Err? && IsIllegalArgument(Decode(bytes).error)
    ensures r.Rejected? && (r.reason.NotEducationalFormat? || r.reason.DecodingFailed?) ==>
      Decode(bytes).Err? && r.reason.error == Decode(bytes).error
    ensures r.Rejected? && r.reason.NoContent? ==> Decode(bytes).Ok?
  {
    if |bytes| < 4 then Rejected(TooShort(|bytes|))
    else match Decode(bytes)
      case Err(e) =>
        if IsIllegalArgument(e) then Rejected(NotEducationalFormat(e)) else Rejected(DecodingFailed(e))
      case Ok(il) =>
        if HasContent(il) then Accepted else Rejected(NoContent)
  }

  /** validateEQREducationalFormat: the length guard, then a trial decode and its contents. */
  method ValidateEQREducationalFormat(bytes: seq<Byte>) returns (r: Validation)
    ensures r == ValidationOf(bytes)
  {
    if |bytes| < 4 {
      return Rejected(TooShort(|bytes|));
    }
    var decoded := DecodePayload(bytes);
    if decoded.Err? {
      if IsIllegalArgument(decoded.error) {
        return Rejected(NotEducationalFormat(decoded.error));
      }
      return Rejected(DecodingFailed(decoded.error));
    }
    var il := decoded.value;
    if !(il.labels != [] || il.randGenerators != [] || il.solutions != [] || il.exercises != []) {
      return Rejected(NoContent);
    }
    r := Accepted;
  }

  /** A payload whose first section marker (the low two bits of byte 2) is 11 is not eQR. */
  lemma {:induction false} MarkerThreeIsNotEducational(bytes: seq<Byte>)
    requires |bytes| >= 4 && bytes[2] % 4 == 3
    ensures ValidationOf(bytes) == Rejected(NotEducationalFormat(InvalidHeaderMarker(3)))
  {
    DecodeRejectsMarker3(bytes);
  }

  // ---------------------------------------------------------------------------
  // Binary rendering

  function BitChar(bit: nat): char
    requires bit < 2
  {
    if bit == 1 then '1' else '0'
  }

  /** Integer.toBinaryString for a non-negative value: its binary digits, no leading zeros. */
  function ToBinaryString(n: nat): (r: string)
    ensures 1 <= |r|
    decreases n
  {
    if n < 2 then [BitChar(n)] else ToBinaryString(n / 2) + [BitChar(n % 2)]
  }

  /** String.format("%8s", s): s right-aligned in eight columns with spaces. */
  function PadLeft8(s: string): (r: string)
  {
    if |s| >= 8 then s else seq(8 - |s|, _ => ' ') + s
  }

  /** String.replace(old, new) on single characters. */
  function ReplaceChar(s: string, from: char, to: char): (r: string)
  {
    seq(|s|, i requires 0 <= i < |s| => if s[i] == from then to else s[i])
  }

  /** The eight characters bytesToBinary writes for one byte. */
  function ByteDigits(b: Byte): (r: string)
    ensures |r| == 8
  {
    assert Pow2(8) == 256;
    BinaryStringShort(b, 8);
    ReplaceChar(PadLeft8(ToBinaryString(b)), ' ', '0')
  }

  lemma {:induction false} HalfQuotient(n: nat, m: nat)
    requires m > 0
    ensures (n / 2) / m == n / (2 * m)
  {
    var q := n / 2;
    var a := q / m;
    var b := q % m;
    assert n == (2 * m) * a + (2 * b + n % 2);
    assert 0 <= 2 * b + n % 2 < 2 * m;
    QuotientUnique(n, 2 * m, a, 2 * b + n % 2);
  }

  lemma {:induction false} QuotientUnique(n: nat, d: nat, a: nat, rest: nat)
    requires d > 0 && rest < d && n == d * a + rest
    ensures n / d == a
  {
    var q := n / d;
    assert n == d * q + n % d;
    if q < a {
      MultipleAtLeast(d, a - q);
    } else if q > a {
      MultipleAtLeast(d, q - a);
    }
  }

  lemma {:induction false} MultipleAtLeast(d: nat, x: nat)
    requires x >= 1
    ensures d * x >= d
  {
    if x > 1 {
      MultipleAtLeast(d, x - 1);
      assert d * x == d * (x - 1) + d;
    }
  }

  /**
   * toBinaryString's digits are the value's bits, least significant last, and the value
   * is below 2 to the number of digits.
   */
  lemma {:induction false} BinaryStringBits(n: nat, j: nat)
    requires j < |ToBinaryString(n)|
    ensures ToBinaryString(n)[|ToBinaryString(n)| - 1 - j] == BitChar((n / Pow2(j)) % 2)
    decreases n
  {
    if n >= 2 && j > 0 {
      BinaryStringBits(n / 2, j - 1);
      HalfQuotient(n, Pow2(j - 1));
    }
  }

  lemma {:induction false} BinaryStringBound(n: nat)
    ensures n < Pow2(|ToBinaryString(n)|)
    decreases n
  {
    if n >= 2 {
      BinaryStringBound(n / 2);
    }
  }

  lemma {:induction false} BinaryStringShort(n: nat, w: nat)
    requires n < Pow2(w) && w >= 1
    ensures |ToBinaryString(n)| <= w
    decreases n
  {
    if n >= 2 {
      assert w >= 2;
      BinaryStringShort(n / 2, w - 1);
    }
  }

  /** Bits at or above the digit count are zero. */
  lemma {:induction false} HighBitZero(n: nat, j: nat)
    requires |ToBinaryString(n)| <= j
    ensures (n / Pow2(j)) % 2 == 0
  {
    BinaryStringBound(n);
    Pow2Monotone(|ToBinaryString(n)|, j);
    QuotientUnique(n, Pow2(j), 0, n);
  }

  /** The eight characters for a byte spell its bits, most significant first. */
  lemma {:induction false} ByteDigitsBits(b: Byte, k: nat)
    requires k < 8
    ensures ByteDigits(b)[k] == (if BitOfByte(b, k) then '1' else '0')
  {
    var s := ToBinaryString(b);
    assert Pow2(8) == 256;
    BinaryStringShort(b, 8);
    var padded := PadLeft8(s);
    assert |padded| == 8;
    if k < 8 - |s| {
      assert padded[k] == ' ';
      HighBitZero(b, 7 - k);
    } else {
      var j := 7 - k;
      assert padded[k] == s[|s| - 1 - j];
      BinaryStringBits(b, j);
      assert padded[k] != ' ';
    }
  }

  /** What the loop builds: each byte's eight digits followed by a space. */
  function Spaced(bytes: seq<Byte>): (r: string)
    ensures |r| == 9 * |bytes|
    decreases |bytes|
  {
    if bytes == [] then []
    else
      var n := |bytes| - 1;
      Spaced(bytes[..n]) + ByteDigits(bytes[n]) + " "
  }

  /** bytesToBinary's text: the spaced digits with the surrounding whitespace trimmed. */
  function BinaryText(bytes: seq<Byte>): string
  {
    Trim(Spaced(bytes))
  }

  /** bytesToBinary. */
  method BytesToBinary(bytes: seq<Byte>) returns (text: string)
    ensures text == BinaryText(bytes)
  {
    var builder: string := [];
    for k := 0 to |bytes|
      invariant builder == Spaced(bytes[..k])
    {
      assert bytes[..k + 1][..k] == bytes[..k];
      builder := builder + ByteDigits(bytes[k]) + " ";
    }
    assert bytes[..|bytes|] == bytes;
    text := Trim(builder);
  }

  /** Character 9j + k of the spaced text is digit k of byte j, and 9j + 8 is a space. */
  lemma {:induction false} SpacedLayout(bytes: seq<Byte>, j: nat, k: nat)
    requires j < |bytes| && k < 9
    ensures Spaced(bytes)[9 * j + k] == if k == 8 then ' ' else ByteDigits(bytes[j])[k]
    decreases |bytes|
  {
    var n := |bytes| - 1;
    if j < n {
      var init := bytes[..n];
      SpacedLayout(init, j, k);
      SpacedPrefix(bytes, 9 * j + k);
      assert init[j] == bytes[j];
    } else {
      SpacedLast(bytes, k);
    }
  }

  lemma {:induction false} SpacedPrefix(bytes: seq<Byte>, i: nat)
    requires bytes != [] && i < 9 * (|bytes| - 1)
    ensures Spaced(bytes)[i] == Spaced(bytes[..|bytes| - 1])[i]
  {
  }

  lemma {:induction false} SpacedLast(bytes: seq<Byte>, k: nat)
    requires bytes != [] && k < 9
    ensures Spaced(bytes)[9 * (|bytes| - 1) + k] == if k == 8 then ' ' else ByteDigits(bytes[|bytes| - 1])[k]
  {
    var n := |bytes| - 1;
    var tail := ByteDigits(bytes[n]) + " ";
    assert Spaced(bytes) == Spaced(bytes[..n]) + tail;
    assert Spaced(bytes)[9 * n + k] == tail[k];
  }

  /** For at least one byte, trimming removes only the final space. */
  lemma {:induction false} TrimDropsLastSpace(bytes: seq<Byte>)
    requires bytes != []
    ensures BinaryText(bytes) == Spaced(bytes)[..9 * |bytes| - 1]
  {
    var s := Spaced(bytes);
    var n := |bytes| - 1;
    SpacedLayout(bytes, 0, 0);
    SpacedLayout(bytes, n, 7);
    SpacedLayout(bytes, n, 8);
    ByteDigitsBits(bytes[0], 0);
    ByteDigitsBits(bytes[n], 7);
    TrimStartNoLead(s);
    var t := s[..|s| - 1];
    assert s[..|s|] == s;
    TrimEndNoTrail(t);
  }

  /**
   * The shown text of n >= 1 bytes has 9n - 1 characters: each bit of the payload, byte by
   * byte most significant first, as '0' or '1', with one space between bytes.
   */
  lemma {:induction false} BinaryTextLayout(bytes: seq<Byte>, j: nat, k: nat)
    requires j < |bytes| && k < 9 && !(k == 8 && j == |bytes| - 1)
    ensures |BinaryText(bytes)| == 9 * |bytes| - 1
    ensures k < 8 ==> BinaryText(bytes)[9 * j + k] == (if BitsOf(bytes)[8 * j + k] then '1' else '0')
    ensures k == 8 ==> BinaryText(bytes)[9 * j + k] == ' '
  {
    TrimDropsLastSpace(bytes);
    SpacedLayout(bytes, j, k);
    if k < 8 {
      ByteDigitsBits(bytes[j], k);
      BitsOfIndex(bytes, j, k);
    }
  }

  /** No bytes, no text. */
  lemma {:induction false} BinaryTextEmpty()
    ensures BinaryText([]) == ""
  {
    assert Spaced([]) == [];
  }
}
