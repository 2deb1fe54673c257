/**
 * EducationalVM of EduVM.kt: it draws the random variables of a payload, writes their
 * values into the text of each exercise, compiles that text and runs it on its own
 * stack machine. Random.nextInt is a nondeterministic choice within its bounds.
 */
module EducationalMachine {
  import opened Common
  import opened Text
  import opened LinkedMaps
  import opened BitReading
  import opened PayloadFormat
  import opened StackMachine
  import opened MachineLaws
  import opened ExpressionCompiler
  import opened CompilerLaws

  // ---------------------------------------------------------------------------
  // Drawing the variables

  /** The exclusive bound of Random.nextInt(first, second + 1): second + 1 as a 32-bit Int. */
  function Bound(range: (int, int)): int { Wrap32(range.1 + 1) }

  /** Random.nextInt(from, until) throws unless from < until. */
  predicate Drawable(range: (int, int)) { range.0 < Bound(range) }

  /** The values Random.nextInt(first, second + 1) can return. */
  predicate InRange(v: int, range: (int, int)) { range.0 <= v < Bound(range) }

  predicate AllDrawable(gens: Generators)
  {
    forall i :: 0 <= i < |gens| ==> Drawable(gens[i].1)
  }

  /**
   * For 32-bit bounds, a range can be drawn from exactly when min <= max and max is not
   * Int.MAX_VALUE (max + 1 wraps to Int.MIN_VALUE); then the draw lies in [min, max].
   */
  lemma {:induction false} DrawableRange(range: (int, int))
    requires -TWO31 <= range.0 < TWO31 && -TWO31 <= range.1 < TWO31
    ensures Drawable(range) <==> range.0 <= range.1 < TWO31 - 1
    ensures range.1 < TWO31 - 1 ==> forall v :: InRange(v, range) <==> range.0 <= v <= range.1
  {
    if range.1 == TWO31 - 1 {
      assert Wrap32(TWO31) == Wrap32(TWO31 - TWO32);
      assert Bound(range) == -TWO31;
    } else {
      assert Bound(range) == range.1 + 1;
    }
  }

  /** The variable table after putting values[i] under the name of gens[i], in generator order. */
  function DrawTable(gens: Generators, values: seq<int>): LinkedMap<string, int>
    requires |values| == |gens|
    decreases |gens|
  {
    if gens == [] then []
    else
      var n := |gens| - 1;
      Put(DrawTable(gens[..n], values[..n]), gens[n].0, values[n])
  }

  /** vars is a table initializeVariables can produce for gens. */
  ghost predicate IsDraw(vars: LinkedMap<string, int>, gens: Generators)
  {
    exists values: seq<int> :: |values| == |gens|
      && (forall i :: 0 <= i < |gens| ==> InRange(values[i], gens[i].1))
      && vars == DrawTable(gens, values)
  }

  /** A drawn table has one entry per name. */
  lemma {:induction false} DrawTableUnique(gens: Generators, values: seq<int>)
    requires |values| == |gens|
    ensures UniqueKeys(DrawTable(gens, values))
    decreases |gens|
  {
    if gens != [] {
      var n := |gens| - 1;
      DrawTableUnique(gens[..n], values[..n]);
      PutUnique(DrawTable(gens[..n], values[..n]), gens[n].0, values[n]);
    }
  }

  /**
   * With distinct generator names (randGenerators is a Map), the drawn table lists every
   * generator's name with its own drawn value, in generator order.
   */
  lemma {:induction false} DrawTableLayout(gens: Generators, values: seq<int>)
    requires |values| == |gens| && UniqueKeys(gens)
    ensures |DrawTable(gens, values)| == |gens|
    ensures forall i :: 0 <= i < |gens| ==> DrawTable(gens, values)[i] == (gens[i].0, values[i])
    decreases |gens|
  {
    if gens != [] {
      var n := |gens| - 1;
      var prefix, front := gens[..n], values[..n];
      assert UniqueKeys(prefix) by {
        assert forall i :: 0 <= i < n ==> prefix[i] == gens[i];
      }
      DrawTableLayout(prefix, front);
      var t := DrawTable(prefix, front);
      var key := gens[n].0;
      FreshName(gens, t);
      PutNew(t, key, values[n]);
      assert DrawTable(gens, values) == t + [(key, values[n])];
      forall i | 0 <= i < |gens|
        ensures DrawTable(gens, values)[i] == (gens[i].0, values[i])
      {
        if i < n {
          assert t[i] == (prefix[i].0, front[i]);
        }
      }
    }
  }

  /** A table laid out like all generators but the last does not hold the last one's name. */
  lemma {:induction false} FreshName(gens: Generators, t: LinkedMap<string, int>)
    requires |gens| > 0 && UniqueKeys(gens) && |t| == |gens| - 1
    requires forall i :: 0 <= i < |t| ==> t[i].0 == gens[i].0
    ensures gens[|gens| - 1].0 !in Keys(t)
  {
    var key := gens[|gens| - 1].0;
    forall i | 0 <= i < |t|
      ensures Keys(t)[i] != key
    {
      assert Keys(t)[i] == t[i].0 == gens[i].0;
    }
  }

  /** The outcome of initializeVariables: the table, or the first range nextInt rejects. */
  datatype Draw = Drew(values: LinkedMap<string, int>) | EmptyRange(name: string, range: (int, int))

  // ---------------------------------------------------------------------------
  // Substitution

  /** substituteVariables: every name replaced by its value's decimal text, in table order. */
  function Substituted(expression: string, vars: LinkedMap<string, int>): string
    decreases |vars|
  {
    if vars == [] then expression
    else
      var n := |vars| - 1;
      Replace(Substituted(expression, vars[..n]), vars[n].0, IntToString(vars[n].1))
  }

  /** Text in which no variable name occurs comes back unchanged. */
  lemma {:induction false} SubstitutedAbsent(expression: string, vars: LinkedMap<string, int>)
    requires forall i :: 0 <= i < |vars| ==> vars[i].0 != []
    requires forall i, k :: 0 <= i < |vars| ==> !OccursAt(expression, vars[i].0, k)
    ensures Substituted(expression, vars) == expression
    decreases |vars|
  {
    if vars != [] {
      var n := |vars| - 1;
      var init := vars[..n];
      assert forall i :: 0 <= i < n ==> init[i] == vars[i];
      SubstitutedAbsent(expression, init);
      ReplaceAbsent(expression, vars[n].0, IntToString(vars[n].1));
    }
  }

  /** An exercise that is just a variable name becomes the decimal text of its value. */
  lemma {:induction false} SubstitutedName(name: string, v: int)
    requires name != []
    ensures Substituted(name, [(name, v)]) == IntToString(v)
  {
    var vars := [(name, v)];
    assert vars[..0] == [];
    ReplaceWhole(name, IntToString(v));
  }

  // ---------------------------------------------------------------------------
  // Results

  /** ExecutionEvaluation, without its debugInfo text. */
  datatype Evaluation = EquationResult(isEqual: bool) | ExpressionResult(result: real)

  /** The errorMessage of a result, one constructor per way `executeExercise` and `testExpression` produce it. */
  datatype Failure =
    | MachineFailure(error: MachineError)   // vmResult.error
    | InvalidEquation(equation: string)     // the message of the exception compile throws
    | TestFailed(equation: string)          // testExpression's "Test failed: " and that message

  /** ExecutionResult; compiledInstructions holds the code rather than its disassembly text. */
  datatype ExecutionResult = ExecutionResult(
    id: int,
    originalExpression: string,
    substitutedExpression: string,
    isValid: bool,
    result: Option<Evaluation>,
    errorMessage: Option<Failure>,
    vmSteps: nat,
    compiledInstructions: Option<seq<Instruction>>,
    finalStack: seq<real>)

  /** The evaluation of a successful run: isEqual ?: false, or result ?: 0.0. */
  function EvaluationOf(v: VMExecutionResult): Evaluation
  {
    if v.isEquation then EquationResult(v.isEqual == Some(true))
    else ExpressionResult(if v.result.Some? then v.result.value else 0.0)
  }

  /** The result built when compile throws: nothing ran and the text is reported unsubstituted. */
  function NotCompiled(id: int, expression: string, failure: Failure): ExecutionResult
  {
    ExecutionResult(id, expression, expression, false, None, Some(failure), 0, None, [])
  }

  /** The result built from the machine's report v on the compiled code. */
  function Report(id: int, expression: string, substituted: string, code: seq<Instruction>, v: VMExecutionResult)
    : (r: ExecutionResult)
    ensures r.isValid <==> v.success
    ensures r.isValid <==> r.result.Some?
  {
    ExecutionResult(id, expression, substituted, v.success,
      if v.success then Some(EvaluationOf(v)) else None,
      if v.error.Some? then Some(MachineFailure(v.error.value)) else None,
      v.executionSteps, Some(code), v.finalStack)
  }

  /**
   * executeExercise(id, exercise) for an exercise with text `expression` and the variable
   * table `vars`, on a machine whose table is `table` once setVariables(vars) has run.
   */
  function ExerciseResult(id: int, expression: string, vars: LinkedMap<string, int>,
                          table: LinkedMap<string, real>, pow: (real, real) -> real): (r: ExecutionResult)
    ensures r.id == id && r.originalExpression == expression
    ensures r.isValid <==> r.result.Some?
    ensures r.isValid <==> r.errorMessage.None?
    ensures r.compiledInstructions.None? <==> Compile(Substituted(expression, vars)).InvalidEquationFormat?
    ensures r.compiledInstructions.None? ==>
      r.substitutedExpression == expression && r.vmSteps == 0 && r.finalStack == [] && !r.isValid
    ensures r.compiledInstructions.Some? ==> r.substitutedExpression == Substituted(expression, vars)
  {
    var substituted := Substituted(expression, vars);
    match Compile(substituted)
    case InvalidEquationFormat(equation) => NotCompiled(id, expression, InvalidEquation(equation))
    case Compiled(program) =>
      var out := Run(program.instructions, Start(table), pow);
      Report(id, expression, substituted, program.instructions, CreateResult(program, out))
  }

  /** testExpression(expression): id 0, and a compile exception is reported as a failed test. */
  function TestResult(expression: string, vars: LinkedMap<string, int>,
                      table: LinkedMap<string, real>, pow: (real, real) -> real): (r: ExecutionResult)
    ensures r.id == 0 && r.originalExpression == expression
    ensures r.isValid <==> r.result.Some?
    ensures r.compiledInstructions.None? <==> Compile(Substituted(expression, vars)).InvalidEquationFormat?
    ensures r.compiledInstructions.None? ==>
      r.substitutedExpression == expression && r.vmSteps == 0 && r.finalStack == []
      && r.errorMessage == Some(TestFailed(Compile(Substituted(expression, vars)).equation))
  {
    var substituted := Substituted(expression, vars);
    match Compile(substituted)
    case InvalidEquationFormat(equation) => NotCompiled(0, expression, TestFailed(equation))
    case Compiled(program) =>
      var out := Run(program.instructions, Start(table), pow);
      Report(0, expression, substituted, program.instructions, CreateResult(program, out))
  }

  /**
   * An exercise whose text is one variable name evaluates to the value drawn for it: the
   * substituted text is the value's decimal text, compiled to a push and Halt.
   */
  lemma {:induction false} VariableExercise(id: int, name: string, v: int,
                                            table: LinkedMap<string, real>, pow: (real, real) -> real)
    requires name != []
    ensures ExerciseResult(id, name, [(name, v)], table, pow)
         == ExecutionResult(id, name, IntToString(v), true, Some(ExpressionResult(v as real)), None,
                            2, Some([Push(v as real), Halt]), [v as real])
  {
    SubstitutedName(name, v);
    IntegerCompiles(v);
    PushThenHalt(v as real, table, pow);
  }

  /**
   * testExpression on the decimal text of an integer, with no variables, is a valid
   * expression result holding that integer.
   */
  lemma {:induction false} IntegerTest(v: int, table: LinkedMap<string, real>, pow: (real, real) -> real)
    ensures TestResult(IntToString(v), [], table, pow)
         == ExecutionResult(0, IntToString(v), IntToString(v), true, Some(ExpressionResult(v as real)), None,
                            2, Some([Push(v as real), Halt]), [v as real])
  {
    IntegerCompiles(v);
    PushThenHalt(v as real, table, pow);
  }

  /**
   * Running compiled code leaves the table setVariables produced, and setting the same
   * variables again reproduces it: every exercise of a batch runs on the same table.
   */
  lemma {:induction false} SameTable(expression: string, vars: LinkedMap<string, int>,
                                     m: LinkedMap<string, real>, pow: (real, real) -> real)
    requires UniqueKeys(vars)
    requires Compile(Substituted(expression, vars)).Compiled?
    ensures var code := Compile(Substituted(expression, vars)).program.instructions;
      PutAll(Run(code, Start(PutAll(m, vars)), pow).state.variables, vars) == PutAll(m, vars)
  {
    CompiledKeepsVariables(Substituted(expression, vars), PutAll(m, vars), pow);
    PutAllTwice(m, vars);
  }

  /**
   * What initializeVariables leaves, given the values it drew, the table it built and the
   * machine's state before and after: the table holds the draws in generator order; a
   * success draws every range and puts the table into the machine's, with nothing else of
   * the machine changed; a throw stops at a range that cannot be drawn and leaves the
   * machine as it was.
   */
  ghost predicate DrawnFrom(gens: Generators, values: seq<int>, table: LinkedMap<string, int>,
                            drawn: bool, before: State, after: State)
  {
    && |values| <= |gens|
    && (forall i :: 0 <= i < |values| ==> InRange(values[i], gens[i].1))
    && table == DrawTable(gens[..|values|], values)
    && (drawn <==> |values| == |gens|)
    && (drawn ==> after == before.(variables := PutAll(before.variables, table)))
    && (!drawn ==> !Drawable(gens[|values|].1) && after == before)
  }

  /**
   * The machine's state after testExpression, from its state before: unchanged when
   * compile throws, otherwise the final state of the run over the machine's table with
   * the instance's table put into it.
   */
  ghost function StateAfterTest(expression: string, table: LinkedMap<string, int>, before: State,
                             pow: (real, real) -> real): State
  {
    var compiled := Compile(Substituted(expression, table));
    if compiled.Compiled? then
      Run(compiled.program.instructions, Start(PutAll(before.variables, table)), pow).state
    else before
  }

  /** One more exercise's result keeps executeExercises' list the results of the exercises so far. */
  lemma {:induction false} ResultAppended(results: seq<ExecutionResult>, r: ExecutionResult,
                                          exercises: seq<Exercise>, k: nat, vars: LinkedMap<string, int>,
                                          table: LinkedMap<string, real>, pow: (real, real) -> real)
    requires |results| == k < |exercises|
    requires forall i :: 0 <= i < k ==> results[i] == ExerciseResult(i + 1, exercises[i].expression, vars, table, pow)
    requires r == ExerciseResult(k + 1, exercises[k].expression, vars, table, pow)
    ensures forall i :: 0 <= i < k + 1 ==>
      (results + [r])[i] == ExerciseResult(i + 1, exercises[i].expression, vars, table, pow)
  {
    forall i | 0 <= i < k + 1
      ensures (results + [r])[i] == ExerciseResult(i + 1, exercises[i].expression, vars, table, pow)
    {
      if i < k {
        assert (results + [r])[i] == results[i];
      }
    }
  }

  // ---------------------------------------------------------------------------
  // The class

  class EducationalVM {
    const il: IntermediateLanguage
    const machine: StackVirtualMachine
    var variables: LinkedMap<string, int>

    /** The variable table has one entry per name, as a Kotlin map does. */
    predicate Valid()
      reads this
    {
      UniqueKeys(variables)
    }

    constructor(il: IntermediateLanguage, pow: (real, real) -> real)
      ensures this.il == il && variables == [] && Valid()
      ensures fresh(machine) && machine.CurrentState() == State([], [], 0, false, 0) && machine.pow == pow
    {
      this.il := il;
      machine := new StackVirtualMachine(pow);
      variables := [];
    }

    /**
     * initializeVariables: clears the table and draws a value for each generator in order;
     * nextInt throws on the first range with first >= second + 1 (32-bit), leaving the
     * values drawn so far. On success the machine's table gets every value.
     * `values` are the draws, the one thing `initializeVariables` leaves to chance.
     */
    method InitializeVariables() returns (r: Draw, ghost values: seq<int>)
      modifies this, machine
      ensures |values| <= |il.randGenerators|
      ensures forall i :: 0 <= i < |values| ==> InRange(values[i], il.randGenerators[i].1)
      ensures variables == DrawTable(il.randGenerators[..|values|], values) && Valid()
      ensures r.Drew? <==> |values| == |il.randGenerators|
      ensures r.Drew? ==> r.values == variables && IsDraw(variables, il.randGenerators)
      ensures r.Drew? ==> machine.variables == PutAll(old(machine.variables), variables)
      ensures r.Drew? ==> machine.stack == old(machine.stack) && machine.programCounter == old(machine.programCounter)
      ensures r.Drew? ==> machine.running == old(machine.running) && machine.executionSteps == old(machine.executionSteps)
      ensures r.EmptyRange? ==> r == EmptyRange(il.randGenerators[|values|].0, il.randGenerators[|values|].1)
      ensures r.EmptyRange? ==> !Drawable(il.randGenerators[|values|].1) && unchanged(machine)
      ensures DrawnFrom(il.randGenerators, values, variables, r.Drew?, old(machine.CurrentState()),
                        machine.CurrentState())
    {
      var gens := il.randGenerators;
      variables := [];
      values := [];
      var k := 0;
      while k < |gens|
        invariant k <= |gens| && |values| == k
        invariant forall i :: 0 <= i < k ==> InRange(values[i], gens[i].1)
        invariant variables == DrawTable(gens[..k], values)
        invariant unchanged(machine)
      {
        var (name, range) := gens[k];
        if !(range.0 < Wrap32(range.1 + 1)) {
          DrawTableUnique(gens[..k], values);
          return EmptyRange(name, range), values;
        }
        var v :| range.0 <= v < Wrap32(range.1 + 1);
        assert gens[..k + 1][..k] == gens[..k] && (values + [v])[..k] == values;
        variables := Put(variables, name, v);
        values := values + [v];
        k := k + 1;
      }
      assert gens[..k] == gens;
      DrawTableUnique(gens, values);
      machine.SetVariables(variables);
      r := Drew(variables);
    }

    /** substituteVariables: replaces each name of the table by its value, in table order. */
    method SubstituteVariables(expression: string) returns (result: string)
      ensures result == Substituted(expression, variables)
    {
      result := expression;
      for k := 0 to |variables|
        invariant result == Substituted(expression, variables[..k])
      {
        assert variables[..k + 1][..k] == variables[..k];
        result := Replace(result, variables[k].0, IntToString(variables[k].1));
      }
      assert variables[..|variables|] == variables;
    }

    /** executeExercise: substitute, compile, set the machine's variables, execute. */
    method ExecuteExercise(id: int, expression: string) returns (r: ExecutionResult)
      modifies machine
      ensures r == ExerciseResult(id, expression, variables, PutAll(old(machine.variables), variables), machine.pow)
      ensures Compile(Substituted(expression, variables)).InvalidEquationFormat? ==>
        machine.CurrentState() == old(machine.CurrentState())
      ensures Compile(Substituted(expression, variables)).Compiled? ==>
        machine.CurrentState() == Run(Compile(Substituted(expression, variables)).program.instructions,
                                      Start(PutAll(old(machine.variables), variables)), machine.pow).state
      ensures Valid() ==> PutAll(machine.variables, variables) == PutAll(old(machine.variables), variables)
    {
      var substituted := SubstituteVariables(expression);
      var compiled := CompileProgram(substituted);
      if compiled.InvalidEquationFormat? {
        return NotCompiled(id, expression, InvalidEquation(compiled.equation));
      }
      var program := compiled.program;
      ghost var before := machine.variables;
      machine.SetVariables(variables);
      var v := machine.Execute(program);
      r := Report(id, expression, substituted, program.instructions, v);
      if Valid() {
        SameTable(expression, variables, before, machine.pow);
      }
    }

    /**
     * executeExercises: one result per exercise, in payload order, with ids 1..n; every
     * exercise runs on the table setVariables gives the machine's table at the start.
     */
    method ExecuteExercises() returns (results: seq<ExecutionResult>)
      requires Valid()
      modifies machine
      ensures |results| == |il.exercises|
      ensures forall i :: 0 <= i < |results| ==> results[i].id == i + 1
      ensures forall i :: 0 <= i < |results| ==>
        results[i] == ExerciseResult(i + 1, il.exercises[i].expression, variables,
                                     PutAll(old(machine.variables), variables), machine.pow)
      ensures PutAll(machine.variables, variables) == PutAll(old(machine.variables), variables)
    {
      results := [];
      ghost var table := PutAll(machine.variables, variables);
      PutAllTwice(machine.variables, variables);
      for k := 0 to |il.exercises|
        invariant |results| == k
        invariant forall i :: 0 <= i < k ==> results[i] == ExerciseResult(i + 1, il.exercises[i].expression,
                                                                        variables, table, machine.pow)
        invariant PutAll(machine.variables, variables) == table
      {
        var r := ExecuteExercise(k + 1, il.exercises[k].expression);
        ResultAppended(results, r, il.exercises, k, variables, table, machine.pow);
        results := results + [r];
      }
    }

    /** testExpression: like executeExercise with id 0; a compile exception becomes "Test failed". */
    method TestExpression(expression: string) returns (r: ExecutionResult)
      modifies machine
      ensures r == TestResult(expression, variables, PutAll(old(machine.variables), variables), machine.pow)
      ensures Compile(Substituted(expression, variables)).InvalidEquationFormat? ==>
        machine.CurrentState() == old(machine.CurrentState())
      ensures Compile(Substituted(expression, variables)).Compiled? ==>
        machine.CurrentState() == Run(Compile(Substituted(expression, variables)).program.instructions,
                                      Start(PutAll(old(machine.variables), variables)), machine.pow).state
      ensures machine.CurrentState() == StateAfterTest(expression, variables, old(machine.CurrentState()), machine.pow)
    {
      var substituted := SubstituteVariables(expression);
      var compiled := CompileProgram(substituted);
      if compiled.InvalidEquationFormat? {
        return NotCompiled(0, expression, TestFailed(compiled.equation));
      }
      var program := compiled.program;
      machine.SetVariables(variables);
      var v := machine.Execute(program);
      r := Report(0, expression, substituted, program.instructions, v);
    }
  }
}
