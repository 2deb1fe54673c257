/**
 * QRBinaryDecoder: the object that reads a payload into its label and generator maps and
 * its solution and exercise lists. Each method is proved to do what the matching function
 * of PayloadFormat describes, from the cursor position and the state it starts with.
 */
module BinaryDecoder {
  import opened Common
  import opened LinkedMaps
  import opened BitReading
  import opened EliasDelta
  import opened PayloadFormat

  class QRBinaryDecoder {
    const reader: BitReader
    var labels: Labels
    var randGenerators: Generators
    var solutions: seq<Solution>
    var exercises: seq<Exercise>

    ghost predicate Valid()
      reads reader
    {
      reader.Valid()
    }

    /** The payload as bits; it never changes. */
    ghost function Bits(): seq<bool>
    {
      reader.Bits()
    }

    function Pos(): nat
      reads reader
      requires Valid()
    {
      reader.Pos()
    }

    constructor (bytes: seq<Byte>)
      ensures Valid() && fresh(reader)
      ensures Bits() == BitsOf(bytes) && Pos() == StartOffsetBits
      ensures labels == [] && randGenerators == [] && solutions == [] && exercises == []
    {
      reader := new BitReader(bytes, StartOffsetBits);
      labels, randGenerators, solutions, exercises := [], [], [], [];
    }

    method Decode() returns (r: Result<IntermediateLanguage>)
      requires Valid()
      modifies this, reader
      ensures Valid()
      ensures Agrees(r, Pos(), DecodeFrom(Bits(), old(Pos()),
        Header(old(labels), old(randGenerators)), old(solutions), old(exercises)))
    {
      var h := DecodeHeader();
      if h.Err? {
        return Err(h.error);
      }
      var s := DecodeSolutionSection();
      if s.Err? {
        return Err(s.error);
      }
      DecodeExerciseSection();
      r := Ok(IntermediateLanguage(labels, randGenerators, solutions, exercises));
    }

    method DecodeHeader() returns (r: Result<()>)
      requires Valid()
      modifies this, reader
      ensures Valid() && solutions == old(solutions) && exercises == old(exercises)
      ensures Reached(r, Pos(), Header(labels, randGenerators),
        HeaderAt(Bits(), old(Pos()), Header(old(labels), old(randGenerators))))
    {
      ghost var bits := Bits();
      ghost var spec := HeaderAt(bits, Pos(), Header(labels, randGenerators));
      while true
        invariant Valid() && solutions == old(solutions) && exercises == old(exercises)
        invariant spec == HeaderAt(bits, Pos(), Header(labels, randGenerators))
        decreases |bits| - Pos()
      {
        var marker := reader.ReadBits(2);
        if marker.Err? {
          return Err(marker.error);
        }
        if marker.value == 1 {
          var l := DecodeLabel();
          if l.Err? {
            return Err(l.error);
          }
        } else if marker.value == 2 {
          var kind := reader.ReadBits(4);
          if kind.Err? {
            return Err(kind.error);
          }
          if kind.value == 0 {
            var g := DecodeRandInt();
            if g.Err? {
              return Err(g.error);
            }
          }
        } else if marker.value == 0 {
          return Ok(());
        } else {
          return Err(InvalidHeaderMarker(marker.value));
        }
      }
    }

    /** Reads a label and, when it is complete, puts it into labels. */
    method DecodeLabel() returns (r: Result<()>)
      requires Valid()
      modifies this, reader
      ensures Valid() && randGenerators == old(randGenerators)
      ensures solutions == old(solutions) && exercises == old(exercises)
      ensures match LabelAt(Bits(), old(Pos()))
        case Done(l, q) => r.Ok? && Pos() == q && labels == Put(old(labels), l.0, l.1)
        case Failed(e, a) => r == Err(e) && Pos() == a
    {
      ghost var p := Pos();
      var kind := reader.ReadBits(2);
      if kind.Err? {
        return Err(kind.error);
      }
      ReadBound(Bits(), p, 2);
      var text := DecodeString();
      if text.Err? {
        return Err(text.error);
      }
      var name := if kind.value == 0 then "MINUS"
        else if kind.value == 1 then "PLUS"
        else if kind.value == 2 then "STAR"
        else "MORE_OPERANDS";
      labels := Put(labels, name, text.value);
      r := Ok(());
    }

    /** Reads a generator and, when it is complete, puts it into randGenerators. */
    method DecodeRandInt() returns (r: Result<()>)
      requires Valid()
      modifies this, reader
      ensures Valid() && labels == old(labels)
      ensures solutions == old(solutions) && exercises == old(exercises)
      ensures match RandIntAt(Bits(), old(Pos()))
        case Done(g, q) => r.Ok? && Pos() == q && randGenerators == Put(old(randGenerators), g.0, (g.1, g.2))
        case Failed(e, a) => r == Err(e) && Pos() == a
    {
      var name := DecodeString();
      if name.Err? {
        return Err(name.error);
      }
      var lo := EliasDeltaDecodeSigned(reader);
      if lo.Err? {
        return Err(lo.error);
      }
      var hi := EliasDeltaDecodeSigned(reader);
      if hi.Err? {
        return Err(hi.error);
      }
      randGenerators := Put(randGenerators, name.value, (lo.value, hi.value));
      r := Ok(());
    }

    method DecodeSolutionSection() returns (r: Result<()>)
      requires Valid()
      modifies this, reader
      ensures Valid() && labels == old(labels) && randGenerators == old(randGenerators)
      ensures exercises == old(exercises)
      ensures Reached(r, Pos(), solutions, SolutionSectionAt(Bits(), old(Pos()), old(solutions)))
    {
      ghost var bits := Bits();
      ghost var loop := SolutionLoop(bits, Pos(), solutions);
      while reader.HasRemaining()
        invariant Valid() && labels == old(labels) && randGenerators == old(randGenerators)
        invariant exercises == old(exercises)
        invariant loop == SolutionLoop(bits, Pos(), solutions)
        decreases |bits| - Pos()
      {
        var more := SolutionRound();
        if more.Err? {
          return Err(more.error);
        }
        if !more.value {
          break;
        }
      }
      assert loop == Done(solutions, Pos());
      if reader.HasRemaining() {
        ghost var p := Pos();
        var marker := reader.PeekBits(2);
        if marker.Err? {
          return Err(marker.error);
        }
        assert Read(bits, p, 2) == Done(marker.value, p + 2);
        if marker.value == 0 {
          var skipped := reader.SkipBits(2);
        }
      }
      r := Ok(());
    }

    /**
     * One round of the loop in decodeSolutionSection: the marker peek, which may fail,
     * then the try block; the result says whether the loop goes on.
     */
    method SolutionRound() returns (r: Result<bool>)
      requires Valid() && Pos() < |Bits()|
      modifies this, reader
      ensures Valid() && labels == old(labels) && randGenerators == old(randGenerators)
      ensures exercises == old(exercises)
      ensures r.Err? ==> SolutionLoop(Bits(), old(Pos()), old(solutions)) == Failed(r.error, Pos())
      ensures r == Ok(false) ==> SolutionLoop(Bits(), old(Pos()), old(solutions)) == Done(solutions, Pos())
      ensures r == Ok(true) ==>
        Pos() > old(Pos()) && SolutionLoop(Bits(), old(Pos()), old(solutions)) == SolutionLoop(Bits(), Pos(), solutions)
    {
      ghost var p := Pos();
      var marker := reader.PeekBits(2);
      if marker.Err? {
        return Err(marker.error);
      }
      assert Read(Bits(), p, 2) == Done(marker.value, p + 2);
      if marker.value != 1 {
        return Ok(false);
      }
      SolutionLoopStep(Bits(), p, solutions);
      var attempt := DecodeSolution();
      if attempt.Break? {
        return Ok(false);
      }
      solutions := solutions + [attempt.value];
      r := Ok(true);
    }

    /** The try block of decodeSolutionSection: a solution, or a break where it stopped. */
    method DecodeSolution() returns (a: Attempt<Solution>)
      requires Valid()
      modifies reader
      ensures Valid() && a == SolutionAttemptAt(Bits(), old(Pos())) && Pos() == a.next
    {
      var s := reader.SkipBits(2);
      if s.Err? {
        return Break(Pos());
      }
      s := reader.SkipBits(2);
      if s.Err? {
        return Break(Pos());
      }
      s := reader.SkipBits(2);
      if s.Err? {
        return Break(Pos());
      }
      var question := DecodeAsciiString();
      if question.Err? {
        return Break(Pos());
      }
      if !reader.HasRemaining() {
        return Break(Pos());
      }
      a := DecodeSolutionRest(question.value);
    }

    method DecodeSolutionRest(question: string) returns (a: Attempt<Solution>)
      requires Valid()
      modifies reader
      ensures Valid() && a == SolutionRestAt(Bits(), old(Pos()), question) && Pos() == a.next
    {
      var s := reader.SkipBits(2);
      if s.Err? {
        return Break(Pos());
      }
      s := reader.SkipBits(2);
      if s.Err? {
        return Break(Pos());
      }
      var steps := DecodeAsciiString();
      if steps.Err? {
        return Break(Pos());
      }
      var tags := DecodeTags();
      if tags.Err? {
        return Break(Pos());
      }
      var end := SkipEndMarker();
      if end.Err? {
        return Break(Pos());
      }
      a := Got(Solution(question, steps.value, tags.value), Pos());
    }

    /** The optional 000 after a list of tags. */
    method SkipEndMarker() returns (r: Result<()>)
      requires Valid()
      modifies reader
      ensures Valid() && Agrees(r, Pos(), EndMarkerAt(Bits(), old(Pos())))
    {
      if reader.HasRemaining() {
        var code := reader.PeekBits(3);
        if code.Err? {
          return Err(code.error);
        }
        if code.value == 0 {
          var skipped := reader.SkipBits(3);
        }
      }
      r := Ok(());
    }

    method DecodeExerciseSection()
      requires Valid()
      modifies this, reader
      ensures Valid() && labels == old(labels) && randGenerators == old(randGenerators)
      ensures solutions == old(solutions)
      ensures (exercises, Pos()) == ExerciseLoop(Bits(), old(Pos()), old(exercises))
    {
      if !reader.HasRemaining() {
        return;
      }
      ghost var bits := Bits();
      ghost var loop := ExerciseLoop(bits, Pos(), exercises);
      while reader.HasRemaining()
        invariant Valid() && labels == old(labels) && randGenerators == old(randGenerators)
        invariant solutions == old(solutions)
        invariant loop == ExerciseLoop(bits, Pos(), exercises)
        decreases |bits| - Pos()
      {
        ExerciseRoundLaw(bits, Pos(), exercises);
        var more := ExerciseRound();
        if !more {
          break;
        }
      }
    }

    /**
     * One round of the loop in decodeExerciseSection: the try block and its catch, which
     * skips a bit while data remains. The result says whether the loop goes on.
     */
    method ExerciseRound() returns (more: bool)
      requires Valid() && Pos() < |Bits()|
      modifies this, reader
      ensures Valid() && labels == old(labels) && randGenerators == old(randGenerators)
      ensures solutions == old(solutions)
      ensures (more, exercises, Pos()) == ExerciseRoundAt(Bits(), old(Pos()), old(exercises))
    {
      ghost var bits, p, exs := Bits(), Pos(), exercises;
      ghost var t := ExerciseTryAt(bits, p);
      assert ExerciseRoundAt(bits, p, exs) == RoundAfter(t, |bits|, exs);
      var attempt := DecodeExercise();
      RoundAfterOf(t, |bits|, exs, attempt, Pos());
      if attempt.Err? {
        more := reader.HasRemaining();
        if more {
          var skipped := reader.SkipBits(1);
        }
      } else if attempt.value.Stop? {
        more := false;
      } else {
        exercises := exercises + [attempt.value.exercise];
        more := true;
      }
    }

    /** The try block of decodeExerciseSection, with what it throws as an error. */
    method DecodeExercise() returns (r: Result<Outcome>)
      requires Valid() && Pos() < |Bits()|
      modifies reader
      ensures Valid() && Agrees(r, Pos(), ExerciseTryAt(Bits(), old(Pos())))
    {
      var marker := reader.PeekBits(2);
      if marker.Err? {
        return Err(marker.error);
      }
      if marker.value == 0 {
        var skipped := reader.SkipBits(2);
        return Ok(Stop);
      }
      if marker.value != 1 {
        return Ok(Stop);
      }
      var skipped := reader.SkipBits(2);
      var flag := reader.ReadBit();
      if flag.Err? {
        return Err(flag.error);
      }
      var prefix := "";
      if flag.value {
        var text := DecodeString();
        if text.Err? {
          return Err(text.error);
        }
        prefix := text.value;
      }
      r := DecodeExerciseRest(flag.value, prefix);
    }

    method DecodeExerciseRest(hasPrefix: bool, prefix: string) returns (r: Result<Outcome>)
      requires Valid()
      modifies reader
      ensures Valid() && Agrees(r, Pos(), ExerciseRestAt(Bits(), old(Pos()), hasPrefix, prefix))
    {
      var expr := DecodeExpression();
      if Text.Trim(expr) == [] {
        return Ok(Stop);
      }
      var tags := DecodeTags();
      if tags.Err? {
        return Err(tags.error);
      }
      var end := SkipEndMarker();
      if end.Err? {
        return Err(end.error);
      }
      var text := if hasPrefix && prefix != [] then prefix + ": " + expr else expr;
      r := Ok(Added(Exercise(text, tags.value)));
    }

    /** decodeExpression: any error ends the expression, so it never fails. */
    method DecodeExpression() returns (e: string)
      requires Valid()
      modifies reader
      ensures Valid() && (e, Pos()) == ExpressionAt(Bits(), old(Pos()))
    {
      ghost var bits := Bits();
      ghost var loop := ExpressionLoop(bits, Pos(), "");
      var expr := "";
      while reader.HasRemaining()
        invariant Valid() && loop == ExpressionLoop(bits, Pos(), expr)
        decreases |bits| - Pos()
      {
        var piece := DecodePiece();
        if piece.Err? || piece.value.EndOfExpression? {
          break;
        }
        expr := expr + piece.value.text;
        if |expr| > MaxExpressionLength {
          break;
        }
      }
      e := Text.Trim(expr);
    }

    /** One round of the loop in decodeExpression. */
    method DecodePiece() returns (r: Result<Piece>)
      requires Valid()
      modifies reader
      ensures Valid() && Agrees(r, Pos(), PieceAt(Bits(), old(Pos())))
    {
      var isOperator := reader.ReadBit();
      if isOperator.Err? {
        return Err(isOperator.error);
      }
      if isOperator.value {
        r := DecodeOperator();
      } else {
        r := DecodeOperand();
      }
    }

    method DecodeOperator() returns (r: Result<Piece>)
      requires Valid()
      modifies reader
      ensures Valid() && Agrees(r, Pos(), OperatorAt(Bits(), old(Pos())))
    {
      var op := reader.ReadBits(3);
      if op.Err? {
        return Err(op.error);
      }
      if op.value == 6 {
        return Ok(EndOfExpression);
      }
      if op.value == 7 {
        var ext := reader.ReadBits(4);
        if ext.Err? {
          return Err(ext.error);
        }
        return Ok(Text(ExtendedOperatorText(ext.value)));
      }
      r := Ok(Text(OperatorText(op.value)));
    }

    method DecodeOperand() returns (r: Result<Piece>)
      requires Valid()
      modifies reader
      ensures Valid() && Agrees(r, Pos(), OperandAt(Bits(), old(Pos())))
    {
      var kind := reader.ReadBits(2);
      if kind.Err? {
        return Err(kind.error);
      }
      if kind.value == 0 {
        var text := DecodeString();
        if text.Err? {
          return Err(text.error);
        }
        return Ok(Text(text.value));
      }
      if kind.value == 1 {
        r := DecodeConstant();
        return;
      }
      r := Ok(Text(""));
    }

    method DecodeConstant() returns (r: Result<Piece>)
      requires Valid()
      modifies reader
      ensures Valid() && Agrees(r, Pos(), ConstantAt(Bits(), old(Pos())))
    {
      ghost var bits, p := Bits(), Pos();
      var kind := reader.ReadBits(2);
      if kind.Err? {
        return Err(kind.error);
      }
      ghost var q := Pos();
      assert Read(bits, p, 2) == Done(kind.value, q);
      if kind.value != 0 {
        return Ok(Text(""));
      }
      var sign := reader.ReadBit();
      if sign.Err? {
        return Err(sign.error);
      }
      assert q < |bits| && sign.value == bits[q];
      var v := EliasDeltaDecode(reader);
      if v.Err? {
        assert DeltaDecodeAt(bits, q + 1) == Failed(v.error, Pos());
        return Err(v.error);
      }
      assert DeltaDecodeAt(bits, q + 1) == Done(v.value, Pos());
      r := Ok(Text(ConstantText(sign.value, v.value)));
    }

    method DecodeTags() returns (r: Result<seq<Tag>>)
      requires Valid()
      modifies reader
      ensures Valid() && Agrees(r, Pos(), TagsAt(Bits(), old(Pos())))
    {
      ghost var bits := Bits();
      ghost var spec := TagsAt(bits, Pos());
      var tags := [];
      PrependNothing(spec);
      while reader.HasRemaining()
        invariant Valid() && spec == Prepend(tags, TagsAt(bits, Pos()))
        decreases |bits| - Pos()
      {
        ghost var p := Pos();
        var code := reader.PeekBits(3);
        if code.Err? {
          return Err(code.error);
        }
        assert Read(bits, p, 3) == Done(code.value, p + 3);
        if code.value == 0 {
          break;
        }
        var tag := reader.ReadBits(3);
        if tag.Err? {
          assert false;
        }
        assert TagsAt(bits, p) == Prepend(TagsOf(tag.value), TagsAt(bits, Pos()));
        PrependTwice(tags, TagsOf(tag.value), TagsAt(bits, Pos()));
        tags := tags + TagsOf(tag.value);
      }
      assert TagsAt(bits, Pos()) == Done([], Pos());
      assert tags + [] == tags;
      r := Ok(tags);
    }

    method DecodeString() returns (r: Result<string>)
      requires Valid()
      modifies reader
      ensures Valid() && Agrees(r, Pos(), StringAt(Bits(), old(Pos())))
    {
      var selector := reader.ReadBits(2);
      if selector.Err? {
        return Err(selector.error);
      }
      if selector.value == 0 {
        r := DecodeAsciiString();
      } else if selector.value == 1 {
        r := DecodeUtf8String();
      } else {
        r := Err(InvalidStringEncoding(selector.value));
      }
    }

    method DecodeAsciiString() returns (r: Result<string>)
      requires Valid()
      modifies reader
      ensures Valid() && Agrees(r, Pos(), CharsAt(Bits(), old(Pos()), 7))
    {
      r := DecodeChars(7);
    }

    /** The bytes become the characters with the same codes. */
    method DecodeUtf8String() returns (r: Result<string>)
      requires Valid()
      modifies reader
      ensures Valid() && Agrees(r, Pos(), CharsAt(Bits(), old(Pos()), 8))
    {
      r := DecodeChars(8);
    }

    /** The loop shared by the two string decoders: codes of the given width up to 3. */
    method DecodeChars(width: nat) returns (r: Result<string>)
      requires Valid() && (width == 7 || width == 8)
      modifies reader
      ensures Valid() && Agrees(r, Pos(), CharsAt(Bits(), old(Pos()), width))
    {
      ghost var bits := Bits();
      ghost var spec := CharsAt(bits, Pos(), width);
      var chars := [];
      PrependNothing(spec);
      while true
        invariant Valid() && spec == Prepend(chars, CharsAt(bits, Pos(), width))
        decreases |bits| - Pos()
      {
        ghost var p := Pos();
        var code := reader.ReadBits(width);
        if code.Err? {
          assert CharsAt(bits, p, width) == Failed(code.error, Pos());
          return Err(code.error);
        }
        assert Read(bits, p, width) == Done(code.value, Pos());
        if code.value == EndOfString {
          assert CharsAt(bits, p, width) == Done([], Pos());
          assert chars + [] == chars;
          return Ok(chars);
        }
        ReadBound(bits, p, width);
        var c := code.value as char;
        assert CharsAt(bits, p, width) == Prepend([c], CharsAt(bits, Pos(), width));
        PrependTwice(chars, [c], CharsAt(bits, Pos(), width));
        chars := chars + [c];
      }
    }
  }

  /** QRBinaryDecoder(bytes).decode() on a new decoder. */
  method DecodePayload(bytes: seq<Byte>) returns (r: Result<IntermediateLanguage>)
    ensures r == Decode(bytes)
  {
    var decoder := new QRBinaryDecoder(bytes);
    r := decoder.Decode();
  }

  lemma PrependNothing<T>(s: Step<seq<T>>)
    ensures Prepend([], s) == s
  {
    match s
    case Done(v, q) =>
      assert [] + v == v;
    case Failed(e, at) =>
  }

  lemma PrependTwice<T>(a: seq<T>, b: seq<T>, s: Step<seq<T>>)
    ensures Prepend(a, Prepend(b, s)) == Prepend(a + b, s)
  {
    match s
    case Done(v, q) =>
      assert a + (b + v) == (a + b) + v;
    case Failed(e, at) =>
  }
}
