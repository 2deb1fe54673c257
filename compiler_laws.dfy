/** What the tokenizer, the shunting-yard conversion and the code emitter guarantee. */
module CompilerLaws {
  import opened Common
  import opened Text
  import opened StackMachine
  import opened MachineLaws
  import opened ExpressionCompiler

  // ---------------------------------------------------------------------------
  // Tokens

  /**
   * The four shapes tokenize produces: a run of digits and dots, a name, a '-' with the
   * run of digits and dots after it, or one of + - * / ^ ( ).
   */
  predicate TokenShape(t: string)
  {
    || (t != [] && forall k :: 0 <= k < |t| ==> IsNumberChar(t[k]))
    || (t != [] && IsLetter(t[0]) && forall k :: 0 <= k < |t| ==> IsWordChar(t[k]))
    || (t != [] && t[0] == '-' && forall k :: 1 <= k < |t| ==> IsNumberChar(t[k]))
    || (|t| == 1 && IsSymbolChar(t[0]))
  }

  /** No token holds whitespace, nor a character outside digits, letters, '.', '_' and + - * / ^ ( ). */
  lemma {:induction false} TokenChars(t: string)
    requires TokenShape(t)
    ensures forall k :: 0 <= k < |t| ==>
      !IsWhitespace(t[k]) && (IsWordChar(t[k]) || t[k] == '.' || IsSymbolChar(t[k]))
  {
  }

  lemma {:induction false} ScanShape(s: string, i: nat, rule: SignRule)
    requires i < |s|
    ensures Scan(s, i, rule).0.Some? ==> TokenShape(Scan(s, i, rule).0.value)
  {
    var r := Scan(s, i, rule);
    if r.0.Some? {
      var t := r.0.value;
      assert t == s[i..r.1];
      forall k | 0 <= k < |t| ensures t[k] == s[i + k] { }
    }
  }

  /** Every token of every text has one of the four shapes. */
  lemma {:induction false} TokensShape(s: string, i: nat, acc: seq<string>, rule: SignRule)
    requires i <= |s|
    requires forall k :: 0 <= k < |acc| ==> TokenShape(acc[k])
    ensures forall k :: 0 <= k < |TokensFrom(s, i, acc, rule)| ==> TokenShape(TokensFrom(s, i, acc, rule)[k])
    decreases |s| - i
  {
    if i < |s| {
      var r := Scan(s, i, rule);
      ScanShape(s, i, rule);
      TokensShape(s, r.1, acc + Found(r.0), rule);
    }
  }

  /** A '-' at the start or after + - * / ^ ( opens a signed number; anywhere else it is the operator "-". */
  lemma {:induction false} MinusRule(s: string, i: nat, rule: SignRule)
    requires i < |s| && s[i] == '-'
    ensures SignPosition(s, i, rule) ==> Scan(s, i, rule) == (Some(s[i..NumberEnd(s, i + 1)]), NumberEnd(s, i + 1))
    ensures !SignPosition(s, i, rule) ==> Scan(s, i, rule) == (Some("-"), i + 1)
  {
  }

  /** Whitespace and characters that start no token are skipped without a token. */
  lemma {:induction false} SkippedCharacters(s: string, i: nat)
    requires i < |s|
    requires IsWhitespace(s[i]) || !(IsWordChar(s[i]) || s[i] == '.' || IsSymbolChar(s[i]))
    ensures forall rule :: Scan(s, i, rule) == (None, i + 1)
  {
    assert !IsNumberChar(s[i]) && !IsLetter(s[i]) && !IsSymbolChar(s[i]) by {
      if !IsWhitespace(s[i]) {
      } else {
        var n := s[i] as int;
        assert !(48 <= n <= 57) && !(65 <= n <= 90) && !(97 <= n <= 122);
      }
    }
  }

  /**
   * The scan reads a word from any letter, but only ASCII names are variables: a word that
   * starts with another letter is no operand, and the emitter gives it no code.
   */
  lemma {:induction false} NonAsciiWordEmitsNothing(t: string)
    requires t != [] && IsLetter(t[0]) && !IsAsciiLetter(t[0])
    ensures !IsOperand(t) && !IsOperator(t) && EmitToken(t) == []
  {
    assert Unsigned(t) == t;
  }

  // ---------------------------------------------------------------------------
  // Number tokens

  /** Scanning digits from the left multiplies the value so far by ten and adds the digit. */
  lemma {:induction false} ScaledAppend(ds: string, d: char, acc: nat)
    requires forall k :: 0 <= k < |ds| ==> IsDigit(ds[k])
    requires IsDigit(d)
    ensures ScaledValue(ds + [d], acc, 1, false) == 10.0 * ScaledValue(ds, acc, 1, false) + DigitValue(d) as real
    decreases |ds|
  {
    if ds == [] {
      assert [] + [d] == [d];
    } else {
      assert (ds + [d])[1..] == ds[1..] + [d];
      ScaledAppend(ds[1..], d, 10 * acc + DigitValue(ds[0]));
    }
  }

  lemma {:induction false} DigitsAreLiteral(ds: string, digit: bool)
    requires forall k :: 0 <= k < |ds| ==> IsDigit(ds[k])
    ensures LiteralFrom(ds, false, digit) == (digit || ds != [])
    decreases |ds|
  {
    if ds != [] {
      DigitsAreLiteral(ds[1..], true);
    }
  }

  lemma {:induction false} NaturalValue(n: nat)
    ensures DecimalValue(NatToString(n)) == n as real
    decreases n
  {
    if n >= 10 {
      NaturalValue(n / 10);
      ScaledAppend(NatToString(n / 10), DigitChar(n % 10), 0);
      assert DigitValue(DigitChar(n % 10)) == n % 10;
      assert n == 10 * (n / 10) + n % 10;
    } else {
      var c := DigitChar(n);
      assert NatToString(n) == [c] && DigitValue(c) == n && c != '.';
      assert ScaledValue([c], 0, 1, false) == ScaledValue([], n, 1, false);
    }
  }

  /**
   * The decimal text of an integer, which is what substitution writes into an expression,
   * is a number token whose value is that integer.
   */
  lemma {:induction false} IntegerTextRoundTrip(v: int)
    ensures IsNumber(IntToString(v)) && NumberValue(IntToString(v)) == v as real
  {
    var n: nat := if v < 0 then -v else v;
    var t := NatToString(n);
    DigitsAreLiteral(t, false);
    NaturalValue(n);
    if v < 0 {
      assert IntToString(v) == "-" + t;
      assert ("-" + t)[1..] == t;
    }
  }

  // ---------------------------------------------------------------------------
  // Shunting-yard

  /** The operands of ts, in order. */
  function Operands(ts: seq<string>): (r: seq<string>)
    ensures |r| <= |ts|
  {
    if ts == [] then [] else Operands(Init(ts)) + (if IsOperand(Last(ts)) then [Last(ts)] else [])
  }

  /** The operators of ts, counted. */
  function Operators(ts: seq<string>): multiset<string>
  {
    if ts == [] then multiset{} else Operators(Init(ts)) + (if IsOperator(Last(ts)) then multiset{Last(ts)} else multiset{})
  }

  lemma {:induction false} SplitLast(a: seq<string>, b: seq<string>)
    requires b != []
    ensures Init(a + b) == a + Init(b) && Last(a + b) == Last(b)
  {
  }

  lemma {:induction false} OperandsAppend(a: seq<string>, b: seq<string>)
    ensures Operands(a + b) == Operands(a) + Operands(b)
    decreases |b|
  {
    if b != [] {
      SplitLast(a, b);
      OperandsAppend(a, Init(b));
      AppendAssoc(Operands(a), Operands(Init(b)), if IsOperand(Last(b)) then [Last(b)] else []);
    } else {
      assert a + b == a;
    }
  }

  lemma {:induction false} OperatorsAppend(a: seq<string>, b: seq<string>)
    ensures Operators(a + b) == Operators(a) + Operators(b)
    decreases |b|
  {
    if b != [] {
      SplitLast(a, b);
      OperatorsAppend(a, Init(b));
    } else {
      assert a + b == a;
    }
  }

  lemma {:induction false} OperatorIsNoOperand(t: string)
    requires IsOperator(t)
    ensures !IsOperand(t)
  {
    assert Unsigned(t) == t || Unsigned(t) == [];
  }

  /** What may sit on the operator stack: operators and "(". */
  predicate StackShape(stack: seq<string>)
  {
    forall k :: 0 <= k < |stack| ==> IsOperator(stack[k]) || stack[k] == "("
  }

  /** What may reach the output: operands, operators and an unmatched "(" — never ")". */
  predicate OutputShape(output: seq<string>)
  {
    forall k :: 0 <= k < |output| ==> output[k] != ")"
  }

  /** Invariant of the main loop, relative to the output and stack it started from. */
  predicate Shunted(output: seq<string>, stack: seq<string>, output0: seq<string>, stack0: seq<string>,
                    operands: seq<string>, operators: multiset<string>)
  {
    StackShape(stack) && OutputShape(output)
    && Operands(output) == Operands(output0) + operands
    && Operators(output) + Operators(stack) == Operators(output0) + Operators(stack0) + operators
  }

  /** Moving the top of the stack to the output keeps operands, shapes and the operator count. */
  lemma {:induction false} MoveTop(output: seq<string>, stack: seq<string>)
    requires stack != [] && StackShape(stack) && OutputShape(output)
    requires Last(stack) != "("
    ensures Shunted(output + [Last(stack)], Init(stack), output, stack, [], multiset{})
  {
    var x := Last(stack);
    OperatorIsNoOperand(x);
    SplitLast(output, [x]);
    assert Init([x]) == [];
  }

  lemma {:induction false} PopToOpenLaw(output: seq<string>, stack: seq<string>)
    requires StackShape(stack) && OutputShape(output)
    ensures var r := PopToOpen(output, stack); Shunted(r.0, r.1, output, stack, [], multiset{})
    decreases |stack|
  {
    if stack != [] && Last(stack) != "(" {
      MoveTop(output, stack);
      PopToOpenLaw(output + [Last(stack)], Init(stack));
    }
  }

  lemma {:induction false} PopHigherLaw(output: seq<string>, stack: seq<string>, prec: int)
    requires StackShape(stack) && OutputShape(output)
    ensures var r := PopHigher(output, stack, prec); Shunted(r.0, r.1, output, stack, [], multiset{})
    decreases |stack|
  {
    if stack != [] && Last(stack) != "(" && Precedence(Last(stack)) >= prec {
      MoveTop(output, stack);
      PopHigherLaw(output + [Last(stack)], Init(stack), prec);
    }
  }

  /** Moving a "(" to the output keeps operands, shapes and the operator count. */
  lemma {:induction false} MoveOpen(output: seq<string>, stack: seq<string>)
    requires stack != [] && StackShape(stack) && OutputShape(output)
    requires Last(stack) == "("
    ensures Shunted(output + [Last(stack)], Init(stack), output, stack, [], multiset{})
  {
    var x := Last(stack);
    assert !IsOperand(x) && !IsOperator(x) by {
      assert Unsigned(x) == x;
    }
    SplitLast(output, [x]);
    assert Init([x]) == [];
  }

  lemma {:induction false} DrainLaw(output: seq<string>, stack: seq<string>)
    requires StackShape(stack) && OutputShape(output)
    ensures Shunted(Drain(output, stack), [], output, stack, [], multiset{})
    decreases |stack|
  {
    if stack != [] {
      var x := Last(stack);
      if x == "(" {
        MoveOpen(output, stack);
      } else {
        MoveTop(output, stack);
      }
      DrainLaw(output + [x], Init(stack));
    }
  }

  /** Removing the "(" that a ")" matched changes no operator count. */
  lemma {:induction false} DropOpen(stack: seq<string>)
    requires stack != [] && Last(stack) == "(" && StackShape(stack)
    ensures StackShape(Init(stack)) && Operators(Init(stack)) == Operators(stack)
  {
  }

  lemma {:induction false} ShuntOperand(t: string, output: seq<string>, stack: seq<string>)
    requires StackShape(stack) && OutputShape(output) && IsOperand(t)
    ensures Shunted(output + [t], stack, output, stack, [t], multiset{})
  {
    assert t != ")" by {
      assert Unsigned(")") == ")";
    }
    assert OutputShape(output + [t]);
    assert Operands(output + [t]) == Operands(output) + [t] by {
      OperandsAppend(output, [t]);
      assert Init([t]) == [] && Last([t]) == t;
    }
    assert Operators(output + [t]) == Operators(output) by {
      OperatorsAppend(output, [t]);
      assert Init([t]) == [] && Last([t]) == t;
      OperatorIsNoOperandBack(t);
    }
  }


  lemma {:induction false} ShuntOpen(output: seq<string>, stack: seq<string>)
    requires StackShape(stack) && OutputShape(output)
    ensures Shunted(output, stack + ["("], output, stack, [], multiset{})
  {
    SplitLast(stack, ["("]);
    assert Init(["("]) == [];
  }

  lemma {:induction false} ShuntClose(output: seq<string>, stack: seq<string>)
    requires StackShape(stack) && OutputShape(output)
    ensures var r := ShuntToken(")", output, stack); Shunted(r.0, r.1, output, stack, [], multiset{})
  {
    assert !IsOperand(")") by {
      assert Unsigned(")") == ")";
    }
    PopToOpenLaw(output, stack);
    var q := PopToOpen(output, stack);
    if q.1 != [] {
      DropOpen(q.1);
    }
  }

  lemma {:induction false} ShuntOperator(t: string, output: seq<string>, stack: seq<string>)
    requires StackShape(stack) && OutputShape(output) && IsOperator(t)
    ensures var r := ShuntToken(t, output, stack); Shunted(r.0, r.1, output, stack, [], multiset{t})
  {
    OperatorIsNoOperand(t);
    PopHigherLaw(output, stack, Precedence(t));
    var q := PopHigher(output, stack, Precedence(t));
    SplitLast(q.1, [t]);
    assert Init([t]) == [];
    var r := ShuntToken(t, output, stack);
    assert r == (q.0, q.1 + [t]);
    assert StackShape(r.1);
    var before, popped := Operators(output) + Operators(stack), Operators(q.0) + Operators(q.1);
    assert popped == before + multiset{};
    assert Operators(r.1) == Operators(q.1) + multiset{t};
    assert Operators(r.0) + Operators(r.1) == popped + multiset{t};
  }

  /** The operands of one token, and its operators. */
  function OperandOf(t: string): seq<string> { if IsOperand(t) then [t] else [] }
  function OperatorOf(t: string): multiset<string> { if IsOperator(t) then multiset{t} else multiset{} }

  /** One token of the main loop: operands go out in order, operators are neither lost nor made. */
  lemma {:induction false} ShuntTokenLaw(t: string, output: seq<string>, stack: seq<string>)
    requires StackShape(stack) && OutputShape(output)
    ensures var r := ShuntToken(t, output, stack); Shunted(r.0, r.1, output, stack, OperandOf(t), OperatorOf(t))
  {
    if IsOperand(t) {
      ShuntOperand(t, output, stack);
      OperatorIsNoOperandBack(t);
    } else if t == "(" {
      ShuntOpen(output, stack);
      assert !IsOperator(t);
    } else if t == ")" {
      ShuntClose(output, stack);
      assert !IsOperator(t);
    } else if IsOperator(t) {
      ShuntOperator(t, output, stack);
    } else {
      assert ShuntToken(t, output, stack) == (output, stack);
    }
  }

  lemma {:induction false} OperatorIsNoOperandBack(t: string)
    requires IsOperand(t)
    ensures !IsOperator(t)
  {
    if IsOperator(t) {
      OperatorIsNoOperand(t);
    }
  }

  lemma {:induction false} SliceHead<T>(s: seq<T>, k: nat)
    requires k < |s|
    ensures s[k..] == [s[k]] + s[k + 1..]
  {
  }

  lemma {:induction false} TokenCons(t: string, rest: seq<string>)
    ensures Operands([t] + rest) == OperandOf(t) + Operands(rest)
    ensures Operators([t] + rest) == OperatorOf(t) + Operators(rest)
  {
    OperandsAppend([t], rest);
    OperatorsAppend([t], rest);
    SingleToken(t);
  }

  lemma {:induction false} SingleToken(t: string)
    ensures Operands([t]) == OperandOf(t) && Operators([t]) == OperatorOf(t)
  {
    assert Init([t]) == [] && Last([t]) == t;
    assert Operands([]) == [] && Operators([]) == multiset{};
  }

  lemma {:induction false} ShuntFromLaw(tokens: seq<string>, k: nat, output: seq<string>, stack: seq<string>)
    requires k <= |tokens| && StackShape(stack) && OutputShape(output)
    ensures var r := ShuntFrom(tokens, k, output, stack);
      Shunted(r.0, r.1, output, stack, Operands(tokens[k..]), Operators(tokens[k..]))
    decreases |tokens| - k
  {
    if k == |tokens| {
      assert tokens[k..] == [];
    } else {
      var t := tokens[k];
      var q := ShuntToken(t, output, stack);
      ShuntTokenLaw(t, output, stack);
      ShuntFromLaw(tokens, k + 1, q.0, q.1);
      SliceHead(tokens, k);
      TokenCons(t, tokens[k + 1..]);
      AppendAssoc(Operands(output), OperandOf(t), Operands(tokens[k + 1..]));
    }
  }

  /**
   * infixToPostfix keeps the operands in their input order, outputs every operator of the
   * input exactly once, and never outputs ")".
   */
  lemma {:induction false} PostfixLaws(tokens: seq<string>)
    ensures Operands(Postfix(tokens)) == Operands(tokens)
    ensures Operators(Postfix(tokens)) == Operators(tokens)
    ensures ")" !in Postfix(tokens)
  {
    var e: seq<string> := [];
    var none: multiset<string> := multiset{};
    ShuntFromLaw(tokens, 0, e, e);
    var r := ShuntFrom(tokens, 0, e, e);
    DrainLaw(r.0, r.1);
    var out := Drain(r.0, r.1);
    assert tokens[0..] == tokens;
    assert Operands(e) == e && Operators(e) == none;
    var operands, operators := Operands(tokens), Operators(tokens);
    assert Operands(r.0) == e + operands && e + operands == operands;
    assert Operators(r.0) + Operators(r.1) == none + none + operators && none + none + operators == operators;
    assert Operands(out) == Operands(r.0) + e && Operands(r.0) + e == Operands(r.0);
    assert Operators(out) + none == Operators(r.0) + Operators(r.1) + none;
    assert Operators(out) + none == Operators(out);
    assert Operators(r.0) + Operators(r.1) + none == Operators(r.0) + Operators(r.1);
    assert OutputShape(out);
  }


  lemma {:induction false} OperandStep(t: string, output: seq<string>, stack: seq<string>)
    requires IsOperand(t)
    ensures ShuntToken(t, output, stack) == (output + [t], stack)
  {
  }

  lemma {:induction false} OperatorStep(t: string, output: seq<string>, stack: seq<string>)
    requires IsOperator(t)
    ensures var q := PopHigher(output, stack, Precedence(t));
      ShuntToken(t, output, stack) == (q.0, q.1 + [t])
  {
    OperatorIsNoOperand(t);
  }

  /** An operator on top of the stack leaves before one of lower or equal precedence. */
  lemma {:induction false} PopsOne(output: seq<string>, stack: seq<string>, x: string, prec: int)
    requires IsOperator(x) && Precedence(x) >= prec
    requires stack == [] || Last(stack) == "("
    ensures PopHigher(output, stack + [x], prec) == (output + [x], stack)
  {
    SplitLast(stack, [x]);
    assert Init([x]) == [];
    assert stack + [x] != [];
  }

  /** An operator on top of the stack stays under one of higher precedence. */
  lemma {:induction false} PopsNone(output: seq<string>, stack: seq<string>, x: string, prec: int)
    requires IsOperator(x) && Precedence(x) < prec
    ensures PopHigher(output, stack + [x], prec) == (output, stack + [x])
  {
    SplitLast(stack, [x]);
  }

  lemma {:induction false} ShuntStep(tokens: seq<string>, k: nat, output: seq<string>, stack: seq<string>)
    requires k < |tokens|
    ensures var q := ShuntToken(tokens[k], output, stack);
      ShuntFrom(tokens, k, output, stack) == ShuntFrom(tokens, k + 1, q.0, q.1)
  {
  }

  lemma {:induction false} DrainTwo(output: seq<string>, x: string, y: string)
    ensures Drain(output, [x, y]) == output + [y, x]
  {
    assert Init([x, y]) == [x] && Last([x, y]) == y;
    assert Drain(output, [x, y]) == Drain(output + [y], [x]);
    DrainOne(output + [y], x);
    assert output + [y] + [x] == output + [y, x];
  }

  lemma {:induction false} DrainOne(output: seq<string>, x: string)
    ensures Drain(output, [x]) == output + [x]
  {
    assert Init([x]) == [] && Last([x]) == x;
  }

  /** Shunting the first operand and the operator after it into an empty output and stack. */
  lemma {:induction false} OpeningPair(ts: seq<string>, a: string, o: string)
    requires |ts| >= 2 && ts[0] == a && ts[1] == o && IsOperand(a) && IsOperator(o)
    ensures ShuntFrom(ts, 0, [], []) == ShuntFrom(ts, 2, [a], [o])
  {
    var e: seq<string> := [];
    OperandStep(a, e, e);
    assert e + [a] == [a] && e + [o] == [o];
    ShuntStep(ts, 0, e, e);
    OperatorStep(o, [a], e);
    assert PopHigher([a], e, Precedence(o)) == ([a], e);
    ShuntStep(ts, 1, [a], e);
  }

  /** Shunting an operand: it goes straight to the output. */
  lemma {:induction false} OperandNext(ts: seq<string>, k: nat, output: seq<string>, stack: seq<string>)
    requires k < |ts| && IsOperand(ts[k])
    ensures ShuntFrom(ts, k, output, stack) == ShuntFrom(ts, k + 1, output + [ts[k]], stack)
  {
    OperandStep(ts[k], output, stack);
    ShuntStep(ts, k, output, stack);
  }

  /** Shunting an operator: the operators it outranks leave, then it is pushed. */
  lemma {:induction false} OperatorNext(ts: seq<string>, k: nat, output: seq<string>, stack: seq<string>)
    requires k < |ts| && IsOperator(ts[k])
    ensures var q := PopHigher(output, stack, Precedence(ts[k]));
      ShuntFrom(ts, k, output, stack) == ShuntFrom(ts, k + 1, q.0, q.1 + [ts[k]])
  {
    OperatorStep(ts[k], output, stack);
    ShuntStep(ts, k, output, stack);
  }

  /** A lone operator on the stack leaves before one of lower or equal precedence. */
  lemma {:induction false} PopsOnly(output: seq<string>, x: string, prec: int)
    requires IsOperator(x) && Precedence(x) >= prec
    ensures PopHigher(output, [x], prec) == (output + [x], [])
  {
    assert Init([x]) == [] && Last([x]) == x;
  }

  /**
   * a o1 b o2 c with o1 binding at least as tightly as o2 is (a o1 b) o2 c: o1 leaves
   * before c is read. With equal precedence this makes every operator, ^ included,
   * left-associative.
   */
  lemma {:induction false} LeftFirst(a: string, o1: string, b: string, o2: string, c: string)
    requires IsOperand(a) && IsOperand(b) && IsOperand(c) && IsOperator(o1) && IsOperator(o2)
    requires Precedence(o1) >= Precedence(o2)
    ensures Postfix([a, o1, b, o2, c]) == [a, b, o1, c, o2]
  {
    var ts := [a, o1, b, o2, c];
    var e: seq<string> := [];
    calc {
      ShuntFrom(ts, 0, [], []);
    == { OpeningPair(ts, a, o1); }
      ShuntFrom(ts, 2, [a], [o1]);
    == { OperandNext(ts, 2, [a], [o1]); assert [a] + [b] == [a, b]; }
      ShuntFrom(ts, 3, [a, b], [o1]);
    == { OperatorNext(ts, 3, [a, b], [o1]);
         assert e + [o1] == [o1];
         PopsOne([a, b], e, o1, Precedence(o2));
         assert [a, b] + [o1] == [a, b, o1] && e + [o2] == [o2]; }
      ShuntFrom(ts, 4, [a, b, o1], [o2]);
    == { OperandNext(ts, 4, [a, b, o1], [o2]); assert [a, b, o1] + [c] == [a, b, o1, c]; }
      ShuntFrom(ts, 5, [a, b, o1, c], [o2]);
    }
    DrainOne([a, b, o1, c], o2);
    assert [a, b, o1, c] + [o2] == [a, b, o1, c, o2];
  }

  /** a o1 b o2 c with o2 binding more tightly is a o1 (b o2 c): o2 leaves first. */
  lemma {:induction false} TighterFirst(a: string, o1: string, b: string, o2: string, c: string)
    requires IsOperand(a) && IsOperand(b) && IsOperand(c) && IsOperator(o1) && IsOperator(o2)
    requires Precedence(o1) < Precedence(o2)
    ensures Postfix([a, o1, b, o2, c]) == [a, b, c, o2, o1]
  {
    var ts := [a, o1, b, o2, c];
    var e: seq<string> := [];
    calc {
      ShuntFrom(ts, 0, [], []);
    == { OpeningPair(ts, a, o1); }
      ShuntFrom(ts, 2, [a], [o1]);
    == { OperandNext(ts, 2, [a], [o1]); assert [a] + [b] == [a, b]; }
      ShuntFrom(ts, 3, [a, b], [o1]);
    == { OperatorNext(ts, 3, [a, b], [o1]);
         assert e + [o1] == [o1];
         PopsNone([a, b], e, o1, Precedence(o2));
         assert [o1] + [o2] == [o1, o2]; }
      ShuntFrom(ts, 4, [a, b], [o1, o2]);
    == { OperandNext(ts, 4, [a, b], [o1, o2]); assert [a, b] + [c] == [a, b, c]; }
      ShuntFrom(ts, 5, [a, b, c], [o1, o2]);
    }
    DrainTwo([a, b, c], o1, o2);
    assert [a, b, c] + [o2, o1] == [a, b, c, o2, o1];
  }

  /** A '-' read as an operator right after another operator: a o1 - b is (a o1) - b. */
  lemma {:induction false} OperatorAfterOperator(a: string, o1: string, o2: string, b: string)
    requires IsOperand(a) && IsOperand(b) && IsOperator(o1) && IsOperator(o2)
    requires Precedence(o1) >= Precedence(o2)
    ensures Postfix([a, o1, o2, b]) == [a, o1, b, o2]
  {
    var ts := [a, o1, o2, b];
    var e: seq<string> := [];
    calc {
      ShuntFrom(ts, 0, [], []);
    == { OpeningPair(ts, a, o1); }
      ShuntFrom(ts, 2, [a], [o1]);
    == { OperatorNext(ts, 2, [a], [o1]);
         PopsOnly([a], o1, Precedence(o2));
         assert e + [o2] == [o2] && [a] + [o1] == [a, o1]; }
      ShuntFrom(ts, 3, [a, o1], [o2]);
    == { OperandNext(ts, 3, [a, o1], [o2]); assert [a, o1] + [b] == [a, o1, b]; }
      ShuntFrom(ts, 4, [a, o1, b], [o2]);
    }
    DrainOne([a, o1, b], o2);
    assert [a, o1, b] + [o2] == [a, o1, b, o2];
  }

  /** a o b: the operator follows its two operands. */
  lemma {:induction false} Binary(a: string, o: string, b: string)
    requires IsOperand(a) && IsOperand(b) && IsOperator(o)
    ensures Postfix([a, o, b]) == [a, b, o]
  {
    var ts := [a, o, b];
    OpeningPair(ts, a, o);
    OperandNext(ts, 2, [a], [o]);
    assert [a] + [b] == [a, b];
    DrainOne([a, b], o);
    assert [a, b] + [o] == [a, b, o];
  }

  /** The number tokens "2", "3", "4", "5" and "-5", and their values. */
  lemma {:induction false} SmallConstants()
    ensures IsOperand("2") && IsOperand("3") && IsOperand("4") && IsOperand("5") && IsOperand("-5")
    ensures NumberValue("3") == 3.0 && NumberValue("5") == 5.0 && NumberValue("-5") == -5.0
  {
    assert ScaledValue("3", 0, 1, false) == ScaledValue([], 3, 1, false);
    assert ScaledValue("5", 0, 1, false) == ScaledValue([], 5, 1, false);
    assert "-5"[1..] == "5";
  }

  /** Operators of equal precedence leave left to right, so 2 ^ 3 ^ 2 is (2 ^ 3) ^ 2. */
  lemma {:induction false} PowerIsLeftAssociative()
    ensures Postfix(["2", "^", "3", "^", "2"]) == ["2", "3", "^", "2", "^"]
  {
    SmallConstants();
    LeftFirst("2", "^", "3", "^", "2");
  }

  /** Higher precedence leaves first: 3 + 4 * 2 becomes 3 4 2 * +. */
  lemma {:induction false} ProductBeforeSum()
    ensures Postfix(["3", "+", "4", "*", "2"]) == ["3", "4", "2", "*", "+"]
  {
    SmallConstants();
    TighterFirst("3", "+", "4", "*", "2");
  }

  // ---------------------------------------------------------------------------
  // A '-' after an operator and a space

  /** The text "3 * -5", character by character. */
  predicate SpacedExample(s: string)
  {
    |s| == 6 && s[0] == '3' && s[1] == ' ' && s[2] == '*' && s[3] == ' ' && s[4] == '-' && s[5] == '5'
  }

  /** The tokens of "3 * -5": `tokenize` splits the '-' off, and it stays with 5 when whitespace is skipped. */
  lemma {:induction false} SpacedNegativeTokens(s: string)
    requires SpacedExample(s)
    ensures Tokens(s) == ["3", "*", "-", "5"]
    ensures TokensCorrected(s) == ["3", "*", "-5"]
  {
    SpacedPrefix(s, RawPrevious);
    SpacedPrefix(s, NonBlankPrevious);
    assert !SignPosition(s, 4, RawPrevious);
    SignAfterBlanks(s, 2, 4);
    assert NumberEnd(s, 5) == 6;
    assert s[5..6] == "5" && s[4..6] == "-5";
    assert Scan(s, 4, RawPrevious) == (Some("-"), 5);
    assert Scan(s, 5, RawPrevious) == (Some("5"), 6);
    assert Scan(s, 4, NonBlankPrevious) == (Some("-5"), 6);
    var two := ["3", "*"];
    assert two + ["-"] + ["5"] == ["3", "*", "-", "5"] && two + ["-5"] == ["3", "*", "-5"];
    assert TokensFrom(s, 4, two, RawPrevious) == TokensFrom(s, 5, two + ["-"], RawPrevious);
    assert TokensFrom(s, 5, two + ["-"], RawPrevious) == TokensFrom(s, 6, two + ["-"] + ["5"], RawPrevious);
    assert TokensFrom(s, 4, two, NonBlankPrevious) == TokensFrom(s, 6, two + ["-5"], NonBlankPrevious);
  }

  /** Both rules read the "3 * " that comes before the '-' alike. */
  lemma {:induction false} SpacedPrefix(s: string, rule: SignRule)
    requires SpacedExample(s)
    ensures TokensFrom(s, 0, [], rule) == TokensFrom(s, 4, ["3", "*"], rule)
  {
    assert NumberEnd(s, 0) == 1;
    assert s[0..1] == "3";
    assert Scan(s, 0, rule) == (Some("3"), 1);
    assert Scan(s, 1, rule) == (None, 2);
    assert Scan(s, 2, rule) == (Some("*"), 3);
    assert Scan(s, 3, rule) == (None, 4);
    var none: seq<string> := [];
    assert none + ["3"] == ["3"] && ["3"] + ["*"] == ["3", "*"];
    assert ["3"] + none == ["3"] && ["3", "*"] + none == ["3", "*"];
    assert TokensFrom(s, 0, none, rule) == TokensFrom(s, 1, ["3"], rule);
    assert TokensFrom(s, 1, ["3"], rule) == TokensFrom(s, 2, ["3"], rule);
    assert TokensFrom(s, 2, ["3"], rule) == TokensFrom(s, 3, ["3", "*"], rule);
    assert TokensFrom(s, 3, ["3", "*"], rule) == TokensFrom(s, 4, ["3", "*"], rule);
  }

  /** The code of the postfix tokens a b o, for number operands. */
  lemma {:induction false} EmitThree(a: string, b: string, o: string)
    requires IsNumber(a) && IsNumber(b) && IsOperator(o)
    ensures EmitFrom([a, b, o], 0, []) == [Push(NumberValue(a)), Push(NumberValue(b)), OperatorInstruction(o)]
  {
    var p := [a, b, o];
    var e: seq<Instruction> := [];
    EmitNumber(a);
    EmitNumber(b);
    EmitOperator(o);
    assert e + [Push(NumberValue(a))] == [Push(NumberValue(a))];
    assert EmitFrom(p, 0, e) == EmitFrom(p, 1, [Push(NumberValue(a))]);
    assert [Push(NumberValue(a))] + [Push(NumberValue(b))] == [Push(NumberValue(a)), Push(NumberValue(b))];
    assert EmitFrom(p, 1, [Push(NumberValue(a))]) == EmitFrom(p, 2, [Push(NumberValue(a)), Push(NumberValue(b))]);
  }

  lemma {:induction false} EmitNumber(t: string)
    requires IsNumber(t)
    ensures EmitToken(t) == [Push(NumberValue(t))]
  {
  }

  lemma {:induction false} EmitOperator(t: string)
    requires IsOperator(t)
    ensures EmitToken(t) == [OperatorInstruction(t)]
  {
    OperatorIsNoOperand(t);
  }

  /** The code of the postfix tokens a o1 b o2, for number operands. */
  lemma {:induction false} EmitFour(a: string, o1: string, b: string, o2: string)
    requires IsNumber(a) && IsNumber(b) && IsOperator(o1) && IsOperator(o2)
    ensures EmitFrom([a, o1, b, o2], 0, [])
         == [Push(NumberValue(a)), OperatorInstruction(o1), Push(NumberValue(b)), OperatorInstruction(o2)]
  {
    var p := [a, o1, b, o2];
    var e: seq<Instruction> := [];
    EmitNumber(a);
    EmitNumber(b);
    EmitOperator(o1);
    EmitOperator(o2);
    var x, f, y, g := Push(NumberValue(a)), OperatorInstruction(o1), Push(NumberValue(b)), OperatorInstruction(o2);
    assert e + [x] == [x] && [x] + [f] == [x, f] && [x, f] + [y] == [x, f, y] && [x, f, y] + [g] == [x, f, y, g];
    assert EmitFrom(p, 0, e) == EmitFrom(p, 1, [x]);
    assert EmitFrom(p, 1, [x]) == EmitFrom(p, 2, [x, f]);
    assert EmitFrom(p, 2, [x, f]) == EmitFrom(p, 3, [x, f, y]);
    assert EmitFrom(p, 3, [x, f, y]) == EmitFrom(p, 4, [x, f, y, g]);
  }

  /**
   * As tokenize is written, the '-' of "3 * -5" follows a space, so it becomes the
   * operator "-": the postfix is 3 * 5 - and the code fails on Mul with one value.
   */
  lemma {:induction false} SpacedNegativeAsWritten(s: string, vars: LinkedMaps.LinkedMap<string, real>, pow: (real, real) -> real)
    requires SpacedExample(s)
    ensures Tokens(s) == ["3", "*", "-", "5"]
    ensures Compile(s) == Compiled(Program([Push(3.0), Mul, Push(5.0), Sub, Halt], false, s))
    ensures Run([Push(3.0), Mul, Push(5.0), Sub, Halt], Start(vars), pow)
         == Fault(StackUnderflow(Mul), State([3.0], vars, 1, true, 1))
  {
    SpacedNegativeTokens(s);
    SpacedHasNoEquals(s);
    SpacedCodeAsWritten(s);
    OperatorOnOneValue(3.0, Mul, [Push(3.0), Mul, Push(5.0), Sub, Halt], vars, pow);
  }

  lemma {:induction false} SpacedCodeAsWritten(s: string)
    requires SpacedExample(s)
    ensures ExpressionCode(s) == [Push(3.0), Mul, Push(5.0), Sub]
  {
    SpacedNegativeTokens(s);
    SmallConstants();
    OperatorAfterOperator("3", "*", "-", "5");
    EmitFour("3", "*", "5", "-");
  }

  lemma {:induction false} SpacedHasNoEquals(s: string)
    requires SpacedExample(s)
    ensures '=' !in s
  {
    assert forall k :: 0 <= k < |s| ==> s[k] != '=';
  }

  /** A binary operator right after the first push fails with one value on the stack. */
  lemma {:induction false} OperatorOnOneValue(x: real, i: Instruction, code: seq<Instruction>,
                           vars: LinkedMaps.LinkedMap<string, real>, pow: (real, real) -> real)
    requires IsBinary(i) && |code| >= 2 && code[0] == Push(x) && code[1] == i
    ensures Run(code, Start(vars), pow) == Fault(StackUnderflow(i), State([x], vars, 1, true, 1))
  {
    assert Exec(Start(vars), code[0], pow) == Normal(State([x], vars, 0, true, 0));
  }

  /** Whitespace between an operator or "(" and a '-' does not stop the '-' from being a sign. */
  lemma {:induction false} SignAfterBlanks(s: string, j: nat, i: nat)
    requires j < i < |s| && Opens(s[j])
    requires forall k :: j < k < i ==> IsWhitespace(s[k])
    ensures PrecedingNonBlank(s, i) == Some(s[j])
    ensures SignPosition(s, i, NonBlankPrevious)
    decreases i - j
  {
    if i - 1 > j {
      SignAfterBlanks(s, j, i - 1);
    } else {
      assert !IsWhitespace(s[j]);
    }
  }

  /** With whitespace skipped, "3 * -5" is 3 times the constant -5. */
  lemma {:induction false} SpacedNegativeCorrected(s: string, vars: LinkedMaps.LinkedMap<string, real>, pow: (real, real) -> real)
    requires SpacedExample(s)
    ensures TokensCorrected(s) == ["3", "*", "-5"]
    ensures CompileCorrected(s) == Compiled(Program([Push(3.0), Push(-5.0), Mul, Halt], false, s))
    ensures Run([Push(3.0), Push(-5.0), Mul, Halt], Start(vars), pow)
         == Normal(State([-15.0], vars, 4, false, 4))
  {
    SpacedNegativeTokens(s);
    SpacedHasNoEquals(s);
    SpacedCodeCorrected(s);
    ApplyBinary(3.0, -5.0, Mul, vars, pow);
  }

  lemma {:induction false} SpacedCodeCorrected(s: string)
    requires SpacedExample(s)
    ensures SideCode(s, NonBlankPrevious) == [Push(3.0), Push(-5.0), Mul]
  {
    SpacedNegativeTokens(s);
    SmallConstants();
    Binary("3", "*", "-5");
    EmitThree("3", "-5", "*");
  }

  /** Two pushes, a binary operator and Halt leave the operator's value and count four steps. */
  lemma {:induction false} ApplyBinary(x: real, y: real, i: Instruction, vars: LinkedMaps.LinkedMap<string, real>, pow: (real, real) -> real)
    requires IsBinary(i) && !(i.Div? && y == 0.0)
    ensures Run([Push(x), Push(y), i, Halt], Start(vars), pow)
         == Normal(State([BinaryValue(i, x, y, pow)], vars, 4, false, 4))
  {
    var code := [Push(x), Push(y), i, Halt];
    PushTwo(code, x, y, vars, pow);
    BinaryThenHalt(code, x, y, i, vars, pow);
  }

  lemma {:induction false} PushTwo(code: seq<Instruction>, x: real, y: real, vars: LinkedMaps.LinkedMap<string, real>, pow: (real, real) -> real)
    requires |code| >= 2 && code[0] == Push(x) && code[1] == Push(y)
    ensures Run(code, Start(vars), pow) == Run(code, State([x, y], vars, 2, true, 2), pow)
  {
    var s0 := Start(vars);
    var s1 := State([x], vars, 1, true, 1);
    assert Exec(s0, code[0], pow) == Normal(s1.(pc := 0, steps := 0));
    NormalStep(code, s0, s1.(pc := 0, steps := 0), pow);
    assert Exec(s1, code[1], pow) == Normal(State([x, y], vars, 1, true, 1));
    NormalStep(code, s1, State([x, y], vars, 1, true, 1), pow);
  }

  lemma {:induction false} BinaryThenHalt(code: seq<Instruction>, x: real, y: real, i: Instruction,
                       vars: LinkedMaps.LinkedMap<string, real>, pow: (real, real) -> real)
    requires |code| == 4 && code[2] == i && code[3] == Halt
    requires IsBinary(i) && !(i.Div? && y == 0.0)
    ensures Run(code, State([x, y], vars, 2, true, 2), pow)
         == Normal(State([BinaryValue(i, x, y, pow)], vars, 4, false, 4))
  {
    var v := BinaryValue(i, x, y, pow);
    var s2 := State([x, y], vars, 2, true, 2);
    var s3 := State([v], vars, 3, true, 3);
    BinaryPopsTwoPushesOne(s2, i, pow);
    assert s2.stack[..0] == [];
    assert Exec(s2, code[2], pow) == Normal(s3.(pc := 2, steps := 2));
    NormalStep(code, s2, s3.(pc := 2, steps := 2), pow);
    assert Exec(s3, code[3], pow) == Normal(s3.(running := false));
    NormalStep(code, s3, s3.(running := false), pow);
  }


  // ---------------------------------------------------------------------------
  // Emitted code

  /** The instructions compiled code consists of before its final Halt. */
  predicate Emitted(i: Instruction)
  {
    i.Push? || i.LoadVar? || i.Add? || i.Sub? || i.Mul? || i.Div? || i.Pow? || i.Equal?
  }

  lemma {:induction false} EmitFromEmitted(postfix: seq<string>, k: nat, acc: seq<Instruction>)
    requires k <= |postfix| && Plain(acc)
    ensures Plain(EmitFrom(postfix, k, acc))
    decreases |postfix| - k
  {
    if k < |postfix| {
      EmitFromEmitted(postfix, k + 1, acc + EmitToken(postfix[k]));
    }
  }

  /** Code made only of emitted, non-Equal instructions. */
  predicate Plain(code: seq<Instruction>)
  {
    forall j :: 0 <= j < |code| ==> Emitted(code[j]) && !code[j].Equal?
  }

  lemma {:induction false} EquationCodeShape(left: seq<Instruction>, right: seq<Instruction>)
    requires Plain(left) && Plain(right)
    ensures var code := left + right + [Equal, Halt];
      (forall j :: 0 <= j < |code| - 1 ==> Emitted(code[j]) && (code[j].Equal? ==> j == |code| - 2))
      && NoStore(code)
  {
    var code := left + right + [Equal, Halt];
    forall j | 0 <= j < |code|
      ensures (j < |code| - 1 ==> Emitted(code[j]) && (code[j].Equal? ==> j == |code| - 2)) && !code[j].StoreVar?
    {
      if j < |left| {
        assert code[j] == left[j];
      } else if j < |left| + |right| {
        assert code[j] == right[j - |left|];
      }
    }
  }

  lemma {:induction false} ExpressionCodeShape(body: seq<Instruction>)
    requires Plain(body)
    ensures var code := body + [Halt];
      (forall j :: 0 <= j < |code| - 1 ==> Emitted(code[j]) && !code[j].Equal?) && NoStore(code)
  {
    var code := body + [Halt];
    forall j | 0 <= j < |code|
      ensures (j < |code| - 1 ==> Emitted(code[j]) && !code[j].Equal?) && !code[j].StoreVar?
    {
      if j < |body| {
        assert code[j] == body[j];
      }
    }
  }

  /**
   * Compiled code is straight-line: Halt comes last and only there; there are no jumps,
   * no stores and no stack shuffling; Equal appears exactly for equations, just before Halt.
   */
  lemma {:induction false} CompiledStraightLine(expression: string)
    requires Compile(expression).Compiled?
    ensures var code := Compile(expression).program.instructions;
      (forall j :: 0 <= j < |code| - 1 ==> Emitted(code[j]))
      && (forall j :: 0 <= j < |code| - 1 && code[j].Equal? ==>
            j == |code| - 2 && Compile(expression).program.isEquation)
      && NoStore(code)
  {
    if '=' in expression {
      var parts := EquationParts(expression);
      EmitFromEmitted(Postfix(Tokens(parts[0])), 0, []);
      EmitFromEmitted(Postfix(Tokens(parts[1])), 0, []);
      EquationCodeShape(ExpressionCode(parts[0]), ExpressionCode(parts[1]));
    } else {
      EmitFromEmitted(Postfix(Tokens(expression)), 0, []);
      ExpressionCodeShape(ExpressionCode(expression));
    }
  }

  /** Running compiled code never changes the machine's variable table. */
  lemma {:induction false} CompiledKeepsVariables(expression: string, vars: LinkedMaps.LinkedMap<string, real>, pow: (real, real) -> real)
    requires Compile(expression).Compiled?
    ensures Run(Compile(expression).program.instructions, Start(vars), pow).state.variables == vars
  {
    CompiledStraightLine(expression);
    NoStoreKeepsVariables(Compile(expression).program.instructions, Start(vars), pow);
  }

  // ---------------------------------------------------------------------------
  // The text substitution writes: Int.toString()

  /** A run of digits and dots that goes on to the end of the text is scanned whole. */
  lemma {:induction false} NumberEndAll(s: string, i: nat)
    requires i <= |s| && forall k :: i <= k < |s| ==> IsNumberChar(s[k])
    ensures NumberEnd(s, i) == |s|
    decreases |s| - i
  {
    if i < |s| {
      NumberEndAll(s, i + 1);
    }
  }

  /** The decimal text of an integer is one token, its leading '-' included. */
  lemma {:induction false} IntegerTokens(v: int)
    ensures Tokens(IntToString(v)) == [IntToString(v)]
  {
    var s := IntToString(v);
    if v >= 0 {
      NumberEndAll(s, 0);
      assert s[0..|s|] == s;
      assert Scan(s, 0, RawPrevious) == (Some(s), |s|);
    } else {
      var t := NatToString(-v);
      assert s == "-" + t;
      assert forall k :: 1 <= k < |s| ==> s[k] == t[k - 1];
      NumberEndAll(s, 1);
      assert s[0..|s|] == s;
      assert Scan(s, 0, RawPrevious) == (Some(s), |s|);
    }
    var e: seq<string> := [];
    assert e + Found(Some(s)) == [s];
    assert TokensFrom(s, 0, e, RawPrevious) == TokensFrom(s, |s|, [s], RawPrevious);
  }

  /** The decimal text of an integer holds no '='. */
  lemma {:induction false} IntegerHasNoEquals(v: int)
    ensures '=' !in IntToString(v)
  {
    var s := IntToString(v);
    if v < 0 {
      var t := NatToString(-v);
      assert s == "-" + t;
      assert forall k :: 1 <= k < |s| ==> s[k] == t[k - 1];
    }
    assert forall k :: 0 <= k < |s| ==> s[k] != '=';
  }

  /**
   * Substituting a value for a whole expression leaves an integer literal: it compiles to
   * a push of that value and Halt.
   */
  lemma {:induction false} IntegerCompiles(v: int)
    ensures Compile(IntToString(v)) == Compiled(Program([Push(v as real), Halt], false, IntToString(v)))
  {
    var s := IntToString(v);
    IntegerTextRoundTrip(v);
    IntegerTokens(v);
    IntegerHasNoEquals(v);
    var none: seq<string> := [];
    assert IsOperand(s) && none + [s] == [s];
    assert ShuntToken(s, none, none) == ([s], none);
    assert ShuntFrom([s], 0, none, none) == ShuntFrom([s], 1, [s], none);
    assert Postfix([s]) == [s];
    var code: seq<Instruction> := [];
    assert EmitToken(s) == [Push(v as real)];
    assert code + [Push(v as real)] == [Push(v as real)];
    assert EmitFrom([s], 0, code) == EmitFrom([s], 1, [Push(v as real)]);
    assert ExpressionCode(s) == [Push(v as real)];
  }

  /** A push followed by Halt leaves the value alone on the stack after two steps. */
  lemma {:induction false} PushThenHalt(x: real, vars: LinkedMaps.LinkedMap<string, real>, pow: (real, real) -> real)
    ensures Run([Push(x), Halt], Start(vars), pow) == Normal(State([x], vars, 2, false, 2))
  {
    var code := [Push(x), Halt];
    var s0 := Start(vars);
    assert Exec(s0, code[0], pow) == Normal(State([x], vars, 0, true, 0));
    NormalStep(code, s0, State([x], vars, 0, true, 0), pow);
    var s1 := State([x], vars, 1, true, 1);
    assert Exec(s1, code[1], pow) == Normal(State([x], vars, 1, false, 1));
    NormalStep(code, s1, State([x], vars, 1, false, 1), pow);
  }
}
