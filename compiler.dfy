/**
 * ExpressionCompiler of EduVM.kt: tokenize, infixToPostfix (shunting-yard) and the code
 * emitter. Each step is a function that states what it computes and a method with the
 * source's loops that is proved to compute it.
 */
module ExpressionCompiler {
  import opened Common
  import opened Text
  import opened StackMachine

  // ---------------------------------------------------------------------------
  // Token classes

  predicate IsNumberChar(c: char) { IsDigit(c) || c == '.' }
  predicate IsWordChar(c: char) { IsLetter(c) || IsDigit(c) || c == '_' }
  predicate IsOperatorChar(c: char) { c == '+' || c == '-' || c == '*' || c == '/' || c == '^' }
  predicate IsSymbolChar(c: char) { IsOperatorChar(c) || c == '(' || c == ')' }

  predicate Opens(c: char) { IsOperatorChar(c) || c == '(' }

  /** Which character before a '-' decides whether it starts a signed number. */
  datatype SignRule =
    | RawPrevious       // the character right before the '-', whatever it is
    | NonBlankPrevious  // the nearest character before the '-' that is not whitespace

  /** The nearest non-whitespace character before index i, if there is one. */
  function PrecedingNonBlank(s: string, i: nat): (r: Option<char>)
    requires i <= |s|
    ensures r.Some? ==> !IsWhitespace(r.value)
    ensures r.None? <==> forall k :: 0 <= k < i ==> IsWhitespace(s[k])
    decreases i
  {
    if i == 0 then None
    else if IsWhitespace(s[i - 1]) then PrecedingNonBlank(s, i - 1)
    else Some(s[i - 1])
  }

  /**
   * A '-' starts a signed number when nothing, or one of + - * / ^ ( , comes before it.
   * Under RawPrevious "before it" is the one character at i - 1, so a space in between
   * makes the '-' an operator; under NonBlankPrevious whitespace is skipped.
   */
  predicate SignPosition(s: string, i: nat, rule: SignRule)
    requires i < |s|
  {
    match rule
    case RawPrevious => i == 0 || Opens(s[i - 1])
    case NonBlankPrevious => PrecedingNonBlank(s, i).None? || Opens(PrecedingNonBlank(s, i).value)
  }

  /**
   * An unsigned decimal literal read from the left: digits and at most one '.', with at
   * least one digit; `dot` and `digit` say whether a '.' and a digit were already seen.
   */
  predicate LiteralFrom(b: string, dot: bool, digit: bool)
    decreases |b|
  {
    if b == [] then digit
    else if IsDigit(b[0]) then LiteralFrom(b[1..], dot, true)
    else b[0] == '.' && !dot && LiteralFrom(b[1..], true, digit)
  }

  predicate DecimalLiteral(b: string) { LiteralFrom(b, false, false) }

  function Unsigned(t: string): string
  {
    if |t| > 0 && (t[0] == '-' || t[0] == '+') then t[1..] else t
  }

  /** toDoubleOrNull() != null, for the texts the tokenizer produces (see README). */
  predicate IsNumber(t: string) { DecimalLiteral(Unsigned(t)) }

  /** The regular expression [a-zA-Z][a-zA-Z0-9_]*: ASCII only, unlike the scan's letters. */
  predicate IsVariable(t: string)
  {
    |t| >= 1 && IsAsciiLetter(t[0]) && NameChars(t[1..])
  }

  predicate NameChars(t: string)
    decreases |t|
  {
    t == [] || ((IsAsciiLetter(t[0]) || IsDigit(t[0]) || t[0] == '_') && NameChars(t[1..]))
  }

  predicate IsOperator(t: string) { t == "+" || t == "-" || t == "*" || t == "/" || t == "^" }

  predicate IsOperand(t: string) { IsNumber(t) || IsVariable(t) }

  function Precedence(op: string): (p: int)
    ensures IsOperator(op) <==> p > 0
    ensures op == "^" <==> p == 3
  {
    if op == "+" || op == "-" then 1
    else if op == "*" || op == "/" then 2
    else if op == "^" then 3
    else 0
  }

  // ---------------------------------------------------------------------------
  // Number values

  function DigitValue(c: char): nat { if IsDigit(c) then c as int - '0' as int else 0 }

  /**
   * The value of a literal read from the left: `acc` holds the digits read so far as one
   * integer and `scale` is 10 to the number of digits read after the '.'.
   */
  function ScaledValue(b: string, acc: nat, scale: nat, afterDot: bool): real
    requires scale >= 1
    decreases |b|
  {
    if b == [] then acc as real / scale as real
    else if b[0] == '.' then ScaledValue(b[1..], acc, scale, true)
    else ScaledValue(b[1..], 10 * acc + DigitValue(b[0]), if afterDot then 10 * scale else scale, afterDot)
  }

  /** The exact value of an unsigned literal (Double rounding is not modelled). */
  function DecimalValue(b: string): real { ScaledValue(b, 0, 1, false) }

  /** toDouble() of a number token. */
  function NumberValue(t: string): real
    requires IsNumber(t)
  {
    if |t| > 0 && t[0] == '-' then -DecimalValue(t[1..]) else DecimalValue(Unsigned(t))
  }

  // ---------------------------------------------------------------------------
  // tokenize

  /** The end of the run of digits and dots that starts at i. */
  function NumberEnd(s: string, i: nat): (j: nat)
    requires i <= |s|
    ensures i <= j <= |s|
    ensures forall k :: i <= k < j ==> IsNumberChar(s[k])
    ensures j == |s| || !IsNumberChar(s[j])
    decreases |s| - i
  {
    if i < |s| && IsNumberChar(s[i]) then NumberEnd(s, i + 1) else i
  }

  /** The end of the run of letters, digits and '_' that starts at i. */
  function WordEnd(s: string, i: nat): (j: nat)
    requires i <= |s|
    ensures i <= j <= |s|
    ensures forall k :: i <= k < j ==> IsWordChar(s[k])
    ensures j == |s| || !IsWordChar(s[j])
    decreases |s| - i
  {
    if i < |s| && IsWordChar(s[i]) then WordEnd(s, i + 1) else i
  }

  /**
   * One step of the scan at index i: the token found there, if any, and the index where
   * scanning resumes. Whitespace and characters that start no token yield nothing.
   */
  function Scan(s: string, i: nat, rule: SignRule): (r: (Option<string>, nat))
    requires i < |s|
    ensures i < r.1 <= |s|
    ensures r.0.Some? ==> r.0.value == s[i..r.1]
  {
    var c := s[i];
    if IsWhitespace(c) then (None, i + 1)
    else if IsNumberChar(c) then (Some(s[i..NumberEnd(s, i)]), NumberEnd(s, i))
    else if IsLetter(c) then (Some(s[i..WordEnd(s, i)]), WordEnd(s, i))
    else if c == '-' && SignPosition(s, i, rule) then (Some(s[i..NumberEnd(s, i + 1)]), NumberEnd(s, i + 1))
    else if IsSymbolChar(c) then (Some([c]), i + 1)
    else (None, i + 1)
  }

  function Found(t: Option<string>): seq<string> { if t.Some? then [t.value] else [] }

  /** The scan from index i on, with the tokens found before i in `acc`. */
  function TokensFrom(s: string, i: nat, acc: seq<string>, rule: SignRule): seq<string>
    requires i <= |s|
    decreases |s| - i
  {
    if i == |s| then acc
    else
      var r := Scan(s, i, rule);
      TokensFrom(s, r.1, acc + Found(r.0), rule)
  }

  /** The tokens of s as tokenize is written, looking only at the character before a '-'. */
  function Tokens(s: string): seq<string> { TokensFrom(s, 0, [], RawPrevious) }

  /** The tokens of s with whitespace between an operator and a sign skipped. */
  function TokensCorrected(s: string): seq<string> { TokensFrom(s, 0, [], NonBlankPrevious) }

  /** The inner loop of tokenize over digits and dots. */
  method SkipNumber(s: string, i: nat) returns (j: nat)
    requires i <= |s|
    ensures j == NumberEnd(s, i)
  {
    j := i;
    while j < |s| && (IsDigit(s[j]) || s[j] == '.')
      invariant i <= j <= |s|
      invariant forall k :: i <= k < j ==> IsNumberChar(s[k])
    {
      j := j + 1;
    }
  }

  /** The inner loop of tokenize over letters, digits and '_'. */
  method SkipWord(s: string, i: nat) returns (j: nat)
    requires i <= |s|
    ensures j == WordEnd(s, i)
  {
    j := i;
    while j < |s| && (IsLetter(s[j]) || IsDigit(s[j]) || s[j] == '_')
      invariant i <= j <= |s|
      invariant forall k :: i <= k < j ==> IsWordChar(s[k])
    {
      j := j + 1;
    }
  }

  /** tokenize: a left-to-right scan that advances index i. */
  method Tokenize(expression: string) returns (tokens: seq<string>)
    ensures tokens == Tokens(expression)
  {
    tokens := [];
    var i := 0;
    while i < |expression|
      invariant 0 <= i <= |expression|
      invariant TokensFrom(expression, i, tokens, RawPrevious) == Tokens(expression)
      decreases |expression| - i
    {
      ghost var step, before := Scan(expression, i, RawPrevious), tokens;
      var c := expression[i];
      if IsWhitespace(c) {
        i := i + 1;
      } else if IsDigit(c) || c == '.' {
        var start := i;
        i := SkipNumber(expression, i);
        tokens := tokens + [expression[start..i]];
      } else if IsLetter(c) {
        var start := i;
        i := SkipWord(expression, i);
        tokens := tokens + [expression[start..i]];
      } else {
        var sign := c == '-' && (i == 0 || Opens(expression[i - 1]));
        if sign {
          var start := i;
          i := SkipNumber(expression, i + 1);
          tokens := tokens + [expression[start..i]];
        } else if IsSymbolChar(c) {
          tokens := tokens + [[c]];
          i := i + 1;
        } else {
          i := i + 1;
        }
      }
      assert tokens == before + Found(step.0) && i == step.1;
    }
  }

  // ---------------------------------------------------------------------------
  // infixToPostfix

  function Last(s: seq<string>): string requires |s| > 0 { s[|s| - 1] }
  function Init(s: seq<string>): seq<string> requires |s| > 0 { s[..|s| - 1] }

  /** The ")" loop: move operators to the output until "(" is on top or the stack is empty. */
  function PopToOpen(output: seq<string>, stack: seq<string>): (r: (seq<string>, seq<string>))
    ensures |r.1| <= |stack| && r.1 == stack[..|r.1|]
    ensures r.1 == [] || Last(r.1) == "("
    decreases |stack|
  {
    if stack != [] && Last(stack) != "(" then PopToOpen(output + [Last(stack)], Init(stack))
    else (output, stack)
  }

  /** The operator loop: move operators other than "(" with precedence >= prec to the output. */
  function PopHigher(output: seq<string>, stack: seq<string>, prec: int): (r: (seq<string>, seq<string>))
    ensures |r.1| <= |stack| && r.1 == stack[..|r.1|]
    decreases |stack|
  {
    if stack != [] && Last(stack) != "(" && Precedence(Last(stack)) >= prec then
      PopHigher(output + [Last(stack)], Init(stack), prec)
    else (output, stack)
  }

  /** The final loop: move everything left on the stack, top first. */
  function Drain(output: seq<string>, stack: seq<string>): seq<string>
    decreases |stack|
  {
    if stack == [] then output else Drain(output + [Last(stack)], Init(stack))
  }

  /** One token of the main loop, from (output, operator stack). */
  function ShuntToken(t: string, output: seq<string>, stack: seq<string>): (seq<string>, seq<string>)
  {
    if IsOperand(t) then (output + [t], stack)
    else if t == "(" then (output, stack + [t])
    else if t == ")" then
      var r := PopToOpen(output, stack);
      (r.0, if r.1 != [] then Init(r.1) else r.1)
    else if IsOperator(t) then
      var r := PopHigher(output, stack, Precedence(t));
      (r.0, r.1 + [t])
    else (output, stack)
  }

  /** The main loop over tokens[k..]. */
  function ShuntFrom(tokens: seq<string>, k: nat, output: seq<string>, stack: seq<string>): (seq<string>, seq<string>)
    requires k <= |tokens|
    decreases |tokens| - k
  {
    if k == |tokens| then (output, stack)
    else
      var r := ShuntToken(tokens[k], output, stack);
      ShuntFrom(tokens, k + 1, r.0, r.1)
  }

  function Postfix(tokens: seq<string>): seq<string>
  {
    var r := ShuntFrom(tokens, 0, [], []);
    Drain(r.0, r.1)
  }

  /** infixToPostfix: the shunting-yard loops over the tokens of the expression. */
  method InfixToPostfix(expression: string) returns (output: seq<string>)
    ensures output == Postfix(Tokens(expression))
  {
    output := [];
    var operatorStack: seq<string> := [];
    var tokens := Tokenize(expression);
    for k := 0 to |tokens|
      invariant ShuntFrom(tokens, k, output, operatorStack) == ShuntFrom(tokens, 0, [], [])
    {
      var token := tokens[k];
      ghost var expected := ShuntToken(token, output, operatorStack);
      if IsNumber(token) || IsVariable(token) {
        output := output + [token];
      } else if token == "(" {
        operatorStack := operatorStack + [token];
      } else if token == ")" {
        ghost var target := PopToOpen(output, operatorStack);
        while operatorStack != [] && operatorStack[|operatorStack| - 1] != "("
          invariant PopToOpen(output, operatorStack) == target
          decreases |operatorStack|
        {
          output := output + [operatorStack[|operatorStack| - 1]];
          operatorStack := operatorStack[..|operatorStack| - 1];
        }
        if operatorStack != [] {
          operatorStack := operatorStack[..|operatorStack| - 1];
        }
      } else if IsOperator(token) {
        ghost var target := PopHigher(output, operatorStack, Precedence(token));
        while operatorStack != [] && operatorStack[|operatorStack| - 1] != "("
            && Precedence(operatorStack[|operatorStack| - 1]) >= Precedence(token)
          invariant PopHigher(output, operatorStack, Precedence(token)) == target
          decreases |operatorStack|
        {
          output := output + [operatorStack[|operatorStack| - 1]];
          operatorStack := operatorStack[..|operatorStack| - 1];
        }
        operatorStack := operatorStack + [token];
      }
      assert (output, operatorStack) == expected;
    }
    ghost var target := Drain(output, operatorStack);
    while operatorStack != []
      invariant Drain(output, operatorStack) == target
      decreases |operatorStack|
    {
      output := output + [operatorStack[|operatorStack| - 1]];
      operatorStack := operatorStack[..|operatorStack| - 1];
    }
  }

  // ---------------------------------------------------------------------------
  // Code emission and compile

  function OperatorInstruction(t: string): Instruction
    requires IsOperator(t)
  {
    if t == "+" then Add else if t == "-" then Sub else if t == "*" then Mul else if t == "/" then Div else Pow
  }

  /** The instructions one postfix token becomes; anything else (such as "(") becomes none. */
  function EmitToken(t: string): seq<Instruction>
  {
    if IsNumber(t) then [Push(NumberValue(t))]
    else if IsVariable(t) then [LoadVar(t)]
    else if IsOperator(t) then [OperatorInstruction(t)]
    else []
  }

  /** The code of postfix[k..] appended to `acc`. */
  function EmitFrom(postfix: seq<string>, k: nat, acc: seq<Instruction>): seq<Instruction>
    requires k <= |postfix|
    decreases |postfix| - k
  {
    if k == |postfix| then acc else EmitFrom(postfix, k + 1, acc + EmitToken(postfix[k]))
  }

  /** The code of one side, without the final Halt, with '-' signs placed by `rule`. */
  function SideCode(expression: string, rule: SignRule): seq<Instruction>
  {
    EmitFrom(Postfix(TokensFrom(expression, 0, [], rule)), 0, [])
  }

  /** compileExpression: the code of one side, with its tokens as `tokenize` splits them. */
  function ExpressionCode(expression: string): seq<Instruction>
  {
    SideCode(expression, RawPrevious)
  }

  /** Emitting after earlier code gives that code followed by the code emitted alone. */
  lemma {:induction false} EmitAfter(postfix: seq<string>, k: nat, acc: seq<Instruction>)
    requires k <= |postfix|
    ensures EmitFrom(postfix, k, acc) == acc + EmitFrom(postfix, k, [])
    decreases |postfix| - k
  {
    if k < |postfix| {
      var t := EmitToken(postfix[k]);
      EmitAfter(postfix, k + 1, acc + t);
      EmitAfter(postfix, k + 1, [] + t);
      AppendAssoc(acc, t, EmitFrom(postfix, k + 1, []));
    }
  }

  datatype CompileResult = Compiled(program: Program) | InvalidEquationFormat(equation: string)

  /** The two sides of an equation: the text split on '=' with each part trimmed. */
  function EquationParts(expression: string): (parts: seq<string>)
    ensures |parts| == |Split(expression, '=')|
    ensures forall k :: 0 <= k < |parts| ==> parts[k] == Trim(Split(expression, '=')[k])
  {
    var pieces := Split(expression, '=');
    seq(|pieces|, k requires 0 <= k < |pieces| => Trim(pieces[k]))
  }

  /**
   * compile, with '-' signs placed by `rule`: an equation is left code, right code, Equal;
   * then Halt is appended. It fails only for text with '=' that does not split into
   * exactly two parts.
   */
  function CompileWith(expression: string, rule: SignRule): (r: CompileResult)
    ensures r.InvalidEquationFormat? <==> '=' in expression && |Split(expression, '=')| != 2
    ensures r.Compiled? ==>
      var code := r.program.instructions;
      |code| >= 1 && code[|code| - 1] == Halt
      && (r.program.isEquation <==> '=' in expression)
      && r.program.originalExpression == expression
  {
    if '=' in expression then
      var parts := EquationParts(expression);
      if |parts| != 2 then InvalidEquationFormat(expression)
      else Compiled(Program(SideCode(parts[0], rule) + SideCode(parts[1], rule) + [Equal, Halt], true, expression))
    else Compiled(Program(SideCode(expression, rule) + [Halt], false, expression))
  }

  /** compile, with the sign rule `tokenize` uses. */
  function Compile(expression: string): (r: CompileResult)
    ensures r.InvalidEquationFormat? <==> '=' in expression && |Split(expression, '=')| != 2
    ensures r.Compiled? ==>
      var code := r.program.instructions;
      |code| >= 1 && code[|code| - 1] == Halt
      && (r.program.isEquation <==> '=' in expression)
      && r.program.originalExpression == expression
  {
    CompileWith(expression, RawPrevious)
  }

  /** compile with whitespace between an operator and a '-' sign skipped. */
  function CompileCorrected(expression: string): CompileResult
  {
    CompileWith(expression, NonBlankPrevious)
  }

  /** compileExpression: appends the code of each postfix token to `instructions`. */
  method CompileExpression(expression: string, instructions: seq<Instruction>) returns (result: seq<Instruction>)
    ensures result == instructions + ExpressionCode(expression)
  {
    var postfix := InfixToPostfix(expression);
    result := instructions;
    for k := 0 to |postfix|
      invariant EmitFrom(postfix, k, result) == EmitFrom(postfix, 0, instructions)
    {
      var token := postfix[k];
      ghost var before := result;
      if IsNumber(token) {
        result := result + [Push(NumberValue(token))];
      } else if IsVariable(token) {
        result := result + [LoadVar(token)];
      } else if IsOperator(token) {
        result := result + [OperatorInstruction(token)];
      }
      assert result == before + EmitToken(token);
    }
    EmitAfter(postfix, 0, instructions);
  }

  lemma AppendAssoc<T>(a: seq<T>, b: seq<T>, c: seq<T>)
    ensures a + b + c == a + (b + c) && [] + b == b
  {
  }

  lemma EquationLayout<T>(left: seq<T>, right: seq<T>, compare: T, halt: T)
    ensures [] + left + right + [compare] + [halt] == left + right + [compare, halt]
  {
  }

  lemma ExpressionLayout<T>(code: seq<T>, halt: T)
    ensures [] + code + [halt] == code + [halt]
  {
  }

  /** compile, with the instruction list `compile` fills step by step. */
  method CompileProgram(expression: string) returns (r: CompileResult)
    ensures r == Compile(expression)
  {
    var instructions: seq<Instruction> := [];
    var isEquation := '=' in expression;
    if isEquation {
      var parts := EquationParts(expression);
      if |parts| != 2 {
        return InvalidEquationFormat(expression);
      }
      instructions := CompileExpression(parts[0], instructions);
      instructions := CompileExpression(parts[1], instructions);
      instructions := instructions + [Equal];
      EquationLayout(ExpressionCode(parts[0]), ExpressionCode(parts[1]), Equal, Halt);
    } else {
      instructions := CompileExpression(expression, instructions);
      ExpressionLayout(ExpressionCode(expression), Halt);
    }
    instructions := instructions + [Halt];
    r := Compiled(Program(instructions, isEquation, expression));
  }
}
