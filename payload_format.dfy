/**
 * The payload format that QRBinaryDecoder.kt parses, as functions from a bit position to
 * what the decoder reads there: strings, tags, expressions, the header, the solution and
 * exercise sections, and the whole intermediate language. The class in decoder.dfy is
 * proved to follow these functions step by step.
 */
module PayloadFormat {
  import opened Common
  import opened Text
  import opened LinkedMaps
  import opened BitReading
  import opened EliasDelta

  /** The operation tags attached to solutions and exercises. */
  datatype Tag = Minus | Plus | Star | MoreOperands

  datatype Solution = Solution(question: string, steps: string, tags: seq<Tag>)

  datatype Exercise = Exercise(expression: string, tags: seq<Tag>)

  type Labels = LinkedMap<string, string>

  /** Random integer generators: a variable name and its (min, max) range. */
  type Generators = LinkedMap<string, (int, int)>

  datatype IntermediateLanguage = IntermediateLanguage(
    labels: Labels,
    randGenerators: Generators,
    solutions: seq<Solution>,
    exercises: seq<Exercise>)

  /** The decoder's reader skips the first 22 bits of the payload. */
  const StartOffsetBits: nat := 22

  /** The 7- or 8-bit code that ends a string. */
  const EndOfString: int := 3

  /** decodeExpression stops once its text is longer than this. */
  const MaxExpressionLength: nat := 500

  // ---------------------------------------------------------------------------
  // Reads
  // ---------------------------------------------------------------------------

  /** readBits(n) at p: the n bits as a Kotlin Int, or end of data. */
  function Read(bits: seq<bool>, p: nat, n: nat): (s: Step<int>)
    requires 1 <= n <= 32
    ensures s.Done? ==> s.next == p + n <= |bits|
    ensures s.Failed? <==> p + n > |bits|
    ensures s.Failed? ==> s == Failed(EndOfData, EndPos(|bits|, p))
  {
    StepToInt32(ReadAt(bits, p, n))
  }

  /** skipBits(n) at p. */
  function Skip(bits: seq<bool>, p: nat, n: nat): (s: Step<()>)
    ensures s.Done? ==> s.next == p + n && (n == 0 || p + n <= |bits|)
    ensures s.Failed? <==> n > 0 && p + n > |bits|
    ensures s.Failed? ==> s == Failed(EndOfData, EndPos(|bits|, p))
  {
    StepToUnit(ReadAt(bits, p, n))
  }

  /** A read of at most 8 bits is an unsigned value below 2^n. */
  lemma ReadBound(bits: seq<bool>, p: nat, n: nat)
    requires 1 <= n <= 8
    ensures Read(bits, p, n).Done? ==> 0 <= Read(bits, p, n).value < Pow2(n) <= 256
  {
    SmallReadsDoNotWrap(bits, p, n);
    Pow2Monotone(n, 8);
    Pow2Values();
  }

  /**
   * A method that returns nothing but fills state: on success the cursor is at the
   * step's position and the state is the step's value; on failure r is the error.
   */
  predicate Reached<T(==)>(r: Result<()>, pos: nat, state: T, s: Step<T>)
  {
    match s
    case Done(v, q) => r == Ok(()) && pos == q && state == v
    case Failed(e, a) => r == Err(e) && pos == a
  }

  /** Prepends pre to the value of a successful step. */
  function Prepend<T>(pre: seq<T>, s: Step<seq<T>>): Step<seq<T>>
  {
    match s
    case Done(v, q) => Done(pre + v, q)
    case Failed(e, a) => Failed(e, a)
  }

  // ---------------------------------------------------------------------------
  // Strings
  // ---------------------------------------------------------------------------

  /**
   * decodeAsciiString (width 7) and decodeUtf8String (width 8): codes of the given
   * width up to the end-of-string code 3, which is consumed but not kept. Each code
   * becomes the character with that code.
   */
  function CharsAt(bits: seq<bool>, p: nat, width: nat): (s: Step<string>)
    requires width == 7 || width == 8
    ensures s.Done? ==> p < s.next <= |bits|
    ensures s.Failed? ==> s.error == EndOfData && s.at >= p && s.at >= |bits|
    decreases |bits| - p
  {
    match Read(bits, p, width)
    case Failed(e, a) => Failed(e, a)
    case Done(c, q) =>
      if c == EndOfString then Done([], q)
      else
        ReadBound(bits, p, width);
        Prepend([c as char], CharsAt(bits, q, width))
  }

  /** decodeString: a 2-bit selector, 00 for 7-bit text and 01 for 8-bit text. */
  function StringAt(bits: seq<bool>, p: nat): (s: Step<string>)
    ensures s.Done? ==> p < s.next <= |bits|
    ensures s.Failed? ==> s.at >= p
  {
    match Read(bits, p, 2)
    case Failed(e, a) => Failed(e, a)
    case Done(selector, q) =>
      if selector == 0 then CharsAt(bits, q, 7)
      else if selector == 1 then CharsAt(bits, q, 8)
      else Failed(InvalidStringEncoding(selector), q)
  }

  // ---------------------------------------------------------------------------
  // Tags
  // ---------------------------------------------------------------------------

  function TagOf(code: int): Option<Tag>
  {
    if code == 1 then Some(Minus)
    else if code == 2 then Some(Plus)
    else if code == 3 then Some(Star)
    else if code == 4 then Some(MoreOperands)
    else None
  }

  /** The tag a code contributes to the list: none for the codes 0, 5, 6 and 7. */
  function TagsOf(code: int): seq<Tag>
  {
    match TagOf(code)
    case Some(t) => [t]
    case None => []
  }

  /**
   * decodeTags: 3-bit codes while data remains and the peeked code is not 000; the 000
   * itself is left unread. A peek that runs out of data fails.
   */
  function TagsAt(bits: seq<bool>, p: nat): (s: Step<seq<Tag>>)
    ensures s.Done? ==> p <= s.next
    ensures s.Failed? ==> s.error == EndOfData && s.at >= p && s.at >= |bits|
    decreases |bits| - p
  {
    if p >= |bits| then Done([], p)
    else
      match Read(bits, p, 3)
      case Failed(e, a) => Failed(e, a)
      case Done(code, q) =>
        if code == 0 then Done([], p)
        else Prepend(TagsOf(code), TagsAt(bits, q))
  }

  // ---------------------------------------------------------------------------
  // Expressions
  // ---------------------------------------------------------------------------

  /** What one round of decodeExpression contributes: the end marker, or text to append. */
  datatype Piece = EndOfExpression | Text(text: string)

  function OperatorText(op: int): string
  {
    if op == 1 then " - "
    else if op == 0 then " + "
    else if op == 2 then " * "
    else if op == 3 then " / "
    else if op == 4 then " ^ "
    else if op == 5 then " = "
    else " ?" + IntToString(op) + "? "
  }

  function ExtendedOperatorText(ext: int): string
  {
    if ext == 10 then " ( "
    else if ext == 11 then " ) "
    else " ?ext" + IntToString(ext) + "? "
  }

  /** An integer constant: an optional minus sign, then the decimal text of the value. */
  function ConstantText(negative: bool, v: int): string
  {
    (if negative then "-" else "") + IntToString(v)
  }

  /** One round of decodeExpression from p: a flag bit, then an operator or an operand. */
  function PieceAt(bits: seq<bool>, p: nat): (s: Step<Piece>)
    ensures s.Done? ==> p < s.next
    ensures s.Failed? ==> s.at >= p
  {
    if p >= |bits| then Failed(EndOfData, p)
    else if bits[p] then OperatorAt(bits, p + 1)
    else OperandAt(bits, p + 1)
  }

  /** A 3-bit operator code: 110 ends the expression, 111 announces a 4-bit extended code. */
  function OperatorAt(bits: seq<bool>, p: nat): (s: Step<Piece>)
    ensures s.Done? ==> p < s.next
    ensures s.Failed? ==> s.at >= p
  {
    match Read(bits, p, 3)
    case Failed(e, a) => Failed(e, a)
    case Done(op, q) =>
      if op == 6 then Done(EndOfExpression, q)
      else if op == 7 then
        match Read(bits, q, 4)
        case Failed(e, a) => Failed(e, a)
        case Done(ext, q') => Done(Text(ExtendedOperatorText(ext)), q')
      else Done(Text(OperatorText(op)), q)
  }

  /** A 2-bit operand kind: 00 a string, 01 a constant, anything else nothing. */
  function OperandAt(bits: seq<bool>, p: nat): (s: Step<Piece>)
    ensures s.Done? ==> p < s.next
    ensures s.Failed? ==> s.at >= p
  {
    match Read(bits, p, 2)
    case Failed(e, a) => Failed(e, a)
    case Done(kind, q) =>
      if kind == 0 then
        match StringAt(bits, q)
        case Failed(e, a) => Failed(e, a)
        case Done(str, q') => Done(Text(str), q')
      else if kind == 1 then ConstantAt(bits, q)
      else Done(Text(""), q)
  }

  /** A 2-bit constant kind: 00 is a sign bit and an Elias-delta value; the others add nothing. */
  function ConstantAt(bits: seq<bool>, p: nat): (s: Step<Piece>)
    ensures s.Done? ==> p < s.next
    ensures s.Failed? ==> s.at >= p
  {
    match Read(bits, p, 2)
    case Failed(e, a) => Failed(e, a)
    case Done(kind, q) =>
      if kind != 0 then Done(Text(""), q)
      else if q >= |bits| then Failed(EndOfData, q)
      else
        DeltaDecodeAdvances(bits, q + 1);
        match DeltaDecodeAt(bits, q + 1)
        case Failed(e, a) => Failed(e, a)
        case Done(v, q') => Done(Text(ConstantText(bits[q], v)), q')
  }

  /**
   * The loop of decodeExpression with the text acc built so far: it stops at the end of
   * data, at the end marker, on any error (which it swallows), and once the text is
   * longer than 500 characters. The result is the text and the position reached.
   */
  function ExpressionLoop(bits: seq<bool>, p: nat, acc: string): (r: (string, nat))
    ensures r.1 >= p
    decreases |bits| - p
  {
    if p >= |bits| then (acc, p)
    else
      match PieceAt(bits, p)
      case Failed(_, a) => (acc, a)
      case Done(EndOfExpression, q) => (acc, q)
      case Done(Text(t), q) =>
        if |acc + t| > MaxExpressionLength then (acc + t, q)
        else ExpressionLoop(bits, q, acc + t)
  }

  /** decodeExpression: the loop's text, trimmed. */
  function ExpressionAt(bits: seq<bool>, p: nat): (string, nat)
  {
    var r := ExpressionLoop(bits, p, "");
    (Trim(r.0), r.1)
  }

  // ---------------------------------------------------------------------------
  // Header
  // ---------------------------------------------------------------------------

  /** The keys decodeLabel stores labels under. */
  const LabelNames: set<string> := {"MINUS", "PLUS", "STAR", "MORE_OPERANDS"}

  function LabelName(kind: int): string
    requires 0 <= kind < 4
  {
    if kind == 0 then "MINUS"
    else if kind == 1 then "PLUS"
    else if kind == 2 then "STAR"
    else "MORE_OPERANDS"
  }

  /** decodeLabel: a 2-bit label kind and the label's text. */
  function LabelAt(bits: seq<bool>, p: nat): (s: Step<(string, string)>)
    ensures s.Done? ==> p < s.next && s.value.0 in LabelNames
    ensures s.Failed? ==> s.at >= p
  {
    match Read(bits, p, 2)
    case Failed(e, a) => Failed(e, a)
    case Done(kind, q) =>
      ReadBound(bits, p, 2);
      match StringAt(bits, q)
      case Failed(e, a) => Failed(e, a)
      case Done(text, q') => Done((LabelName(kind), text), q')
  }

  /** decodeRandInt: the variable name, then the signed minimum and maximum. */
  function RandIntAt(bits: seq<bool>, p: nat): (s: Step<(string, int, int)>)
    ensures s.Done? ==> p < s.next
    ensures s.Failed? ==> s.at >= p
  {
    match StringAt(bits, p)
    case Failed(e, a) => Failed(e, a)
    case Done(name, q) =>
      SignedAdvances(bits, q);
      match SignedAt(bits, q)
      case Failed(e, a) => Failed(e, a)
      case Done(lo, q') =>
        SignedAdvances(bits, q');
        match SignedAt(bits, q')
        case Failed(e, a) => Failed(e, a)
        case Done(hi, q'') => Done((name, lo, hi), q'')
  }

  datatype Header = Header(labels: Labels, generators: Generators)

  /**
   * decodeHeader with the maps h filled so far: 2-bit markers, 01 a label, 10 a 4-bit
   * kind followed by a generator when the kind is 0000, 00 the end, 11 an error.
   */
  function HeaderAt(bits: seq<bool>, p: nat, h: Header): (s: Step<Header>)
    ensures s.Done? ==> p < s.next
    ensures s.Failed? ==> s.at >= p
    decreases |bits| - p
  {
    match Read(bits, p, 2)
    case Failed(e, a) => Failed(e, a)
    case Done(marker, q) =>
      if marker == 1 then
        match LabelAt(bits, q)
        case Failed(e, a) => Failed(e, a)
        case Done(entry, q') => HeaderAt(bits, q', h.(labels := Put(h.labels, entry.0, entry.1)))
      else if marker == 2 then
        match Read(bits, q, 4)
        case Failed(e, a) => Failed(e, a)
        case Done(kind, q') =>
          if kind != 0 then HeaderAt(bits, q', h)
          else
            match RandIntAt(bits, q')
            case Failed(e, a) => Failed(e, a)
            case Done(g, q'') =>
              HeaderAt(bits, q'', h.(generators := Put(h.generators, g.0, (g.1, g.2))))
      else if marker == 0 then Done(h, q)
      else Failed(InvalidHeaderMarker(marker), q)
  }

  // ---------------------------------------------------------------------------
  // Solution section
  // ---------------------------------------------------------------------------

  /** One round of a loop whose errors are caught: a value, or a break at a position. */
  datatype Attempt<T> = Got(value: T, next: nat) | Break(next: nat)

  /** "if (hasRemaining() && peekBits(3) == 0b000) skipBits(3)" */
  function EndMarkerAt(bits: seq<bool>, p: nat): (s: Step<()>)
    ensures s.Done? ==> s.next >= p
    ensures s.Failed? ==> s.at >= p && s.at >= |bits|
  {
    if p >= |bits| then Done((), p)
    else
      match Read(bits, p, 3)
      case Failed(e, a) => Failed(e, a)
      case Done(code, _) => if code == 0 then Done((), p + 3) else Done((), p)
  }

  /**
   * The try block of decodeSolutionSection from the solution marker at p: three 2-bit
   * prefixes and the question; any error, or no data after the question, breaks.
   */
  function SolutionAttemptAt(bits: seq<bool>, p: nat): (r: Attempt<Solution>)
    ensures r.Got? ==> r.next > p
    ensures r.Break? ==> r.next >= |bits|
    ensures r.next >= p
  {
    match Skip(bits, p, 2)
    case Failed(_, a) => Break(a)
    case Done(_, q1) =>
      match Skip(bits, q1, 2)
      case Failed(_, a) => Break(a)
      case Done(_, q2) =>
        match Skip(bits, q2, 2)
        case Failed(_, a) => Break(a)
        case Done(_, q3) =>
          match CharsAt(bits, q3, 7)
          case Failed(_, a) => Break(a)
          case Done(question, q4) =>
            if q4 >= |bits| then Break(q4) else SolutionRestAt(bits, q4, question)
  }

  /** The rest of that try block: two 2-bit prefixes, the steps, the tags, the end marker. */
  function SolutionRestAt(bits: seq<bool>, p: nat, question: string): (r: Attempt<Solution>)
    ensures r.Got? ==> r.next > p
    ensures r.Break? ==> r.next >= |bits|
    ensures r.next >= p
  {
    match Skip(bits, p, 2)
    case Failed(_, a) => Break(a)
    case Done(_, q1) =>
      match Skip(bits, q1, 2)
      case Failed(_, a) => Break(a)
      case Done(_, q2) =>
        match CharsAt(bits, q2, 7)
        case Failed(_, a) => Break(a)
        case Done(steps, q3) =>
          match TagsAt(bits, q3)
          case Failed(_, a) => Break(a)
          case Done(tags, q4) =>
            match EndMarkerAt(bits, q4)
            case Failed(_, a) => Break(a)
            case Done(_, q5) => Got(Solution(question, steps, tags), q5)
  }

  /**
   * The loop of decodeSolutionSection with the solutions sols found so far. The peek for
   * the 01 marker is outside the try block: when it runs out of data the error escapes.
   */
  function SolutionLoop(bits: seq<bool>, p: nat, sols: seq<Solution>): (s: Step<seq<Solution>>)
    ensures s.Done? ==> s.next >= p && (s.next >= |bits| || s.next + 2 <= |bits|)
    ensures s.Failed? ==> s.at >= p && s == Failed(EndOfData, |bits|)
    decreases |bits| - p
  {
    if p >= |bits| then Done(sols, p)
    else
      match Read(bits, p, 2)
      case Failed(e, a) => Failed(e, a)
      case Done(marker, _) =>
        if marker != 1 then Done(sols, p)
        else
          match SolutionAttemptAt(bits, p)
          case Break(q) => Done(sols, q)
          case Got(sol, q) => SolutionLoop(bits, q, sols + [sol])
  }

  /** One round of SolutionLoop at a 01 marker, in terms of the attempt there. */
  lemma SolutionLoopStep(bits: seq<bool>, p: nat, sols: seq<Solution>)
    requires p + 2 <= |bits| && Read(bits, p, 2).value == 1
    ensures var a := SolutionAttemptAt(bits, p);
      && (a.Break? ==> SolutionLoop(bits, p, sols) == Done(sols, a.next))
      && (a.Got? ==> SolutionLoop(bits, p, sols) == SolutionLoop(bits, a.next, sols + [a.value]))
  {
  }

  /**
   * decodeSolutionSection, appending to sols: the loop, then a 00 end marker is skipped
   * when present. That last peek is outside the try block too.
   */
  function SolutionSectionAt(bits: seq<bool>, p: nat, sols: seq<Solution>): (s: Step<seq<Solution>>)
    ensures s.Done? ==> s.next >= p
    ensures s.Failed? ==> s.at >= p
  {
    match SolutionLoop(bits, p, sols)
    case Failed(e, a) => Failed(e, a)
    case Done(sols, q) =>
      if q >= |bits| then Done(sols, q)
      else
        match Read(bits, q, 2)
        case Failed(e, a) => Failed(e, a)
        case Done(marker, _) => if marker == 0 then Done(sols, q + 2) else Done(sols, q)
  }

  // ---------------------------------------------------------------------------
  // Exercise section
  // ---------------------------------------------------------------------------

  /** The exercise's text has a visible character. */
  predicate Visible(e: Exercise)
  {
    Trim(e.expression) != []
  }

  /** Every exercise in the list has text with a visible character. */
  predicate AllVisible(exs: seq<Exercise>)
  {
    forall i :: 0 <= i < |exs| ==> Visible(exs[i])
  }

  /** How the try block of decodeExerciseSection ends when nothing is thrown. */
  datatype Outcome = Added(exercise: Exercise) | Stop

  /** The expression text after an optional "prefix: ". */
  function ExerciseText(hasPrefix: bool, prefix: string, expr: string): string
  {
    if hasPrefix && prefix != [] then prefix + ": " + expr else expr
  }

  /**
   * The try block of decodeExerciseSection at p (where data remains): 00 ends the section,
   * anything but 01 stops it, 01 starts an exercise.
   */
  function ExerciseTryAt(bits: seq<bool>, p: nat): (s: Step<Outcome>)
    ensures s.Done? && s.value.Added? ==> s.next > p && Visible(s.value.exercise)
    ensures s.Done? ==> s.next >= p
    ensures s.Failed? ==> s.at >= p
  {
    match Read(bits, p, 2)
    case Failed(e, a) => Failed(e, a)
    case Done(marker, _) =>
      if marker == 0 then Done(Stop, p + 2)
      else if marker != 1 then Done(Stop, p)
      else ExerciseBodyAt(bits, p + 2)
  }

  /** After the 01 prefix: a flag bit and, when it is 1, the prefix string. */
  function ExerciseBodyAt(bits: seq<bool>, p: nat): (s: Step<Outcome>)
    ensures s.Done? ==> s.next > p
    ensures s.Done? && s.value.Added? ==> Visible(s.value.exercise)
    ensures s.Failed? ==> s.at >= p
  {
    if p >= |bits| then Failed(EndOfData, p)
    else if bits[p] then
      match StringAt(bits, p + 1)
      case Failed(e, a) => Failed(e, a)
      case Done(prefix, q) => ExerciseRestAt(bits, q, true, prefix)
    else ExerciseRestAt(bits, p + 1, false, "")
  }

  /**
   * The expression (an empty one stops the section), the tags and the end marker. An
   * exercise that is added has visible text.
   */
  function ExerciseRestAt(bits: seq<bool>, p: nat, hasPrefix: bool, prefix: string): (s: Step<Outcome>)
    ensures s.Done? ==> s.next >= p
    ensures s.Done? && s.value.Added? ==> Visible(s.value.exercise)
    ensures s.Failed? ==> s.at >= p
  {
    var (expr, q) := ExpressionAt(bits, p);
    if Trim(expr) == [] then Done(Stop, q)
    else
      match TagsAt(bits, q)
      case Failed(e, a) => Failed(e, a)
      case Done(tags, q') =>
        match EndMarkerAt(bits, q')
        case Failed(e, a) => Failed(e, a)
        case Done(_, q'') =>
          VisibleText(hasPrefix, prefix, expr);
          Done(Added(Exercise(ExerciseText(hasPrefix, prefix, expr), tags)), q'')
  }

  lemma VisibleText(hasPrefix: bool, prefix: string, expr: string)
    requires Trim(expr) != []
    ensures Trim(ExerciseText(hasPrefix, prefix, expr)) != []
  {
    if hasPrefix && prefix != [] {
      assert prefix + ": " + expr == (prefix + ": ") + expr;
      NonBlankAfterPrefix(prefix + ": ", expr);
    }
  }

  /**
   * The loop of decodeExerciseSection with the exercises exs found so far. An error in
   * the try block skips one bit and tries again, or ends the loop at the end of data.
   * The loop only appends, and only exercises with visible text.
   */
  function ExerciseLoop(bits: seq<bool>, p: nat, exs: seq<Exercise>): (r: (seq<Exercise>, nat))
    ensures r.1 >= p
    ensures |r.0| >= |exs| && r.0[..|exs|] == exs
    ensures AllVisible(exs) ==> AllVisible(r.0)
    decreases |bits| - p
  {
    if p >= |bits| then (exs, p)
    else
      var t := ExerciseTryAt(bits, p);
      if t.Failed? then
        if t.at < |bits| then ExerciseLoop(bits, t.at + 1, exs) else (exs, t.at)
      else if t.value.Stop? then (exs, t.next)
      else
        var x := t.value.exercise;
        var r := ExerciseLoop(bits, t.next, exs + [x]);
        LoopAppended(r.0, exs, x);
        r
  }

  /**
   * What the loop returns after appending a visible x to exs still extends exs, and is
   * all visible when exs is.
   */
  lemma LoopAppended(r: seq<Exercise>, exs: seq<Exercise>, x: Exercise)
    requires Visible(x)
    requires |r| >= |exs + [x]| && r[..|exs + [x]|] == exs + [x]
    requires AllVisible(exs + [x]) ==> AllVisible(r)
    ensures |r| >= |exs| && r[..|exs|] == exs
    ensures AllVisible(exs) ==> AllVisible(r)
  {
    PrefixOfAppended(r, exs, x);
    if AllVisible(exs) {
      forall i | 0 <= i < |exs| + 1 ensures Visible((exs + [x])[i]) {
        if i < |exs| {
          assert (exs + [x])[i] == exs[i];
        }
      }
    }
  }

  lemma PrefixOfAppended<T>(r: seq<T>, s: seq<T>, x: T)
    requires |r| >= |s| + 1 && r[..|s| + 1] == s + [x]
    ensures r[..|s|] == s
  {
    assert r[..|s|] == r[..|s| + 1][..|s|];
  }

  /** One round of ExerciseLoop, in terms of the outcome of the try block at p. */
  lemma ExerciseLoopStep(bits: seq<bool>, p: nat, exs: seq<Exercise>)
    requires p < |bits|
    ensures var t := ExerciseTryAt(bits, p);
      && (t.Failed? && t.at < |bits| ==> ExerciseLoop(bits, p, exs) == ExerciseLoop(bits, t.at + 1, exs))
      && (t.Failed? && t.at >= |bits| ==> ExerciseLoop(bits, p, exs) == (exs, t.at))
      && (t.Done? && t.value.Stop? ==> ExerciseLoop(bits, p, exs) == (exs, t.next))
      && (t.Done? && t.value.Added? ==>
            ExerciseLoop(bits, p, exs) == ExerciseLoop(bits, t.next, exs + [t.value.exercise]))
  {
  }

  /**
   * One round of the loop of decodeExerciseSection from p: whether the loop goes on, the
   * exercises after it, and the position after it.
   */
  ghost function ExerciseRoundAt(bits: seq<bool>, p: nat, exs: seq<Exercise>): (bool, seq<Exercise>, nat)
  {
    RoundAfter(ExerciseTryAt(bits, p), |bits|, exs)
  }

  /** The round after the try block gave t on a payload of n bits: an error skips one bit if any is left. */
  function RoundAfter(t: Step<Outcome>, n: nat, exs: seq<Exercise>): (bool, seq<Exercise>, nat)
  {
    if t.Failed? then (t.at < n, exs, if t.at < n then t.at + 1 else t.at)
    else if t.value.Stop? then (false, exs, t.next)
    else (true, exs + [t.value.exercise], t.next)
  }

  /** A round that ends the loop gives its result; one that goes on moves forward and leaves the rest to the loop. */
  lemma ExerciseRoundLaw(bits: seq<bool>, p: nat, exs: seq<Exercise>)
    requires p < |bits|
    ensures var r := ExerciseRoundAt(bits, p, exs);
      && (!r.0 ==> ExerciseLoop(bits, p, exs) == (r.1, r.2))
      && (r.0 ==> r.2 > p && ExerciseLoop(bits, p, exs) == ExerciseLoop(bits, r.2, r.1))
  {
    ExerciseLoopStep(bits, p, exs);
  }

  /** The round as seen from what the try block returned and where it left the cursor. */
  lemma RoundAfterOf(t: Step<Outcome>, n: nat, exs: seq<Exercise>, r: Result<Outcome>, q: nat)
    requires Agrees(r, q, t)
    ensures r.Err? ==> RoundAfter(t, n, exs) == (q < n, exs, if q < n then q + 1 else q)
    ensures r.Ok? && r.value.Stop? ==> RoundAfter(t, n, exs) == (false, exs, q)
    ensures r.Ok? && r.value.Added? ==> RoundAfter(t, n, exs) == (true, exs + [r.value.exercise], q)
  {
  }

  // ---------------------------------------------------------------------------
  // The whole payload
  // ---------------------------------------------------------------------------

  /**
   * decode from position p on a decoder whose maps and lists already hold h, sols and
   * exs: header, solutions, exercises; errors of the first two escape.
   */
  function DecodeFrom(bits: seq<bool>, p: nat, h: Header, sols: seq<Solution>, exs: seq<Exercise>)
    : (s: Step<IntermediateLanguage>)
    ensures s.Done? ==> s.next > p
    ensures s.Failed? ==> s.at >= p
    ensures s.Done? && AllVisible(exs) ==> AllVisible(s.value.exercises)
  {
    match HeaderAt(bits, p, h)
    case Failed(e, a) => Failed(e, a)
    case Done(h', q) =>
      match SolutionSectionAt(bits, q, sols)
      case Failed(e, a) => Failed(e, a)
      case Done(sols', q') =>
        var (exs', q'') := ExerciseLoop(bits, q', exs);
        Done(IntermediateLanguage(h'.labels, h'.generators, sols', exs'), q'')
  }

  /** decode on a new decoder: everything starts empty at bit 22. */
  function DecodeBits(bits: seq<bool>): Step<IntermediateLanguage>
  {
    DecodeFrom(bits, StartOffsetBits, Header([], []), [], [])
  }

  /** QRBinaryDecoder(bytes).decode(), with the exception as an error value. */
  function Decode(bytes: seq<Byte>): Result<IntermediateLanguage>
  {
    match DecodeBits(BitsOf(bytes))
    case Done(il, _) => Ok(il)
    case Failed(e, _) => Err(e)
  }
}
