/**
 * ExerciseGenerator.kt: picks the exercises that match a tag selection, turns each into an
 * instance (label texts, then variable values, written into its text, and the question
 * split from the mathematics), and checks a user's answer against the machine's value.
 */
module ExerciseGeneration {
  import opened Common
  import opened Text
  import opened LinkedMaps
  import opened PayloadFormat
  import opened StackMachine
  import opened ExpressionCompiler
  import opened CompilerLaws
  import opened EducationalMachine

  // ---------------------------------------------------------------------------
  // Tag selection

  function TagSet(tags: seq<Tag>): set<Tag> { set t | t in tags }

  /** selectedTags.contains("PLUS") && selectedTags.size == 1. */
  predicate PlusAlone(selected: set<Tag>) { Plus in selected && |selected| == 1 }

  /** The selection with PLUS and nothing else is exactly the singleton {PLUS}. */
  lemma {:induction false} PlusAloneIsSingleton(selected: set<Tag>)
    ensures PlusAlone(selected) <==> selected == {Plus}
  {
    if PlusAlone(selected) {
      assert |selected - {Plus}| == 0;
    }
  }

  /** The filter rule: tags exactly {PLUS} under the exact rule, a shared tag otherwise. */
  predicate Matches(e: Exercise, selected: set<Tag>, exact: bool)
  {
    if exact then TagSet(e.tags) == {Plus} else exists t :: t in e.tags && t in selected
  }

  /** filter: the exercises that match, in payload order. */
  function Matching(exs: seq<Exercise>, selected: set<Tag>, exact: bool): (r: seq<Exercise>)
    ensures |r| <= |exs|
    ensures forall e :: e in r <==> e in exs && Matches(e, selected, exact)
    decreases |exs|
  {
    if exs == [] then []
    else
      var n := |exs| - 1;
      assert exs == exs[..n] + [exs[n]];
      Matching(exs[..n], selected, exact) + (if Matches(exs[n], selected, exact) then [exs[n]] else [])
  }

  /** Under the exact rule for {PLUS}, an exercise is kept only if the overlap rule keeps it too. */
  lemma {:induction false} ExactKeepsLess(exs: seq<Exercise>)
    ensures forall e :: e in Matching(exs, {Plus}, true) ==> e in Matching(exs, {Plus}, false)
  {
    forall e | e in Matching(exs, {Plus}, true)
      ensures e in Matching(exs, {Plus}, false)
    {
      assert Plus in TagSet(e.tags);
    }
  }

  /**
   * An exercise tagged PLUS and MINUS is offered by generateNewExercises({PLUS}) but not by
   * getExercisesByTag({PLUS}): the two entry points disagree on a lone PLUS.
   */
  lemma {:induction false} MixedExerciseUnderPlus(expression: string)
    ensures var e := Exercise(expression, [Plus, Minus]);
      e in Matching([e], {Plus}, false) && e !in Matching([e], {Plus}, true)
  {
    var e := Exercise(expression, [Plus, Minus]);
    assert Minus in TagSet(e.tags);
    assert Plus in e.tags;
  }

  // ---------------------------------------------------------------------------
  // Instances

  /** IRExerciseInstance. */
  datatype ExerciseInstance = ExerciseInstance(
    id: int,
    originalExpression: string,
    processedExpression: string,
    questionText: Option<string>,
    mathExpression: string,
    tags: seq<Tag>,
    variables: LinkedMap<string, int>)

  /** The placeholder word a label key stands for in exercise text; other keys have none. */
  function Placeholder(key: string): Option<string>
  {
    if key == "MINUS" then Some("minus")
    else if key == "PLUS" then Some("plus")
    else if key == "STAR" then Some("star")
    else if key == "MORE_OPERANDS" then Some("more_operands")
    else None
  }

  /** Step 1: each label's placeholder replaced by the label's text, in label order. */
  function LabelsReplaced(expression: string, labels: Labels): string
    decreases |labels|
  {
    if labels == [] then expression
    else
      var n := |labels| - 1;
      var before := LabelsReplaced(expression, labels[..n]);
      match Placeholder(labels[n].0)
      case None => before
      case Some(word) => Replace(before, word, labels[n].1)
  }

  /** The processed text: labels first, then variables. */
  function Processed(expression: string, labels: Labels, vars: LinkedMap<string, int>): string
  {
    Substituted(LabelsReplaced(expression, labels), vars)
  }

  /**
   * Because labels go first, a variable name inside a label's text is replaced too: a
   * placeholder whose label is a variable name ends up as that variable's value.
   */
  lemma {:induction false} LabelThenVariable(key: string, name: string, v: int)
    requires Placeholder(key).Some? && name != []
    ensures Processed(Placeholder(key).value, [(key, name)], [(name, v)]) == IntToString(v)
  {
    var labels := [(key, name)];
    var word := Placeholder(key).value;
    assert labels[..0] == [];
    ReplaceWhole(word, name);
    assert LabelsReplaced(word, labels) == name;
    SubstitutedName(name, v);
  }

  /** Exactly one '=' in s: split("=") gives two parts. */
  predicate OneEquals(s: string) { '=' in s && |Split(s, '=')| == 2 }

  /** The left side of a one-'=' text, trimmed (`parseExerciseExpression` trims it twice). */
  function LeftSide(s: string): string
  {
    Trim(Trim(Split(s, '=')[0]))
  }

  /**
   * parseExerciseExpression: (question text, mathematical expression). With ": " the text
   * before it is the question; a remainder with one '=' asks for its left side.
   */
  function ParseExerciseExpression(expression: string): (r: (Option<string>, string))
    ensures r.0.None? <==> IndexOf(expression, ": ") == -1 && !OneEquals(expression)
    ensures r.0.None? ==> r.1 == expression
  {
    var c := IndexOf(expression, ": ");
    if c != -1 then
      var question := expression[..c];
      var rest := expression[c + 2..];
      if OneEquals(rest) then
        var left := LeftSide(rest);
        (Some(question + ": " + left + " = ?"), left)
      else (Some(question), rest)
    else if OneEquals(expression) then
      var left := LeftSide(expression);
      (Some(left + " = ?"), left)
    else (None, expression)
  }

  /** The left side handed to the machine is trimmed and holds no '='. */
  lemma {:induction false} LeftSideLaws(s: string)
    requires OneEquals(s)
    ensures '=' !in LeftSide(s) && Trim(LeftSide(s)) == LeftSide(s)
  {
    var part := Split(s, '=')[0];
    TrimExcludes(part, '=');
    TrimExcludes(Trim(part), '=');
    TrimIdempotent(part);
    TrimIdempotent(Trim(part));
  }

  /**
   * With ": " present at c, the text is the question, ": " and the remainder, and the
   * question holds no ": " of its own.
   */
  lemma {:induction false} QuestionHead(expression: string)
    requires IndexOf(expression, ": ") != -1
    ensures var c := IndexOf(expression, ": ");
      expression == expression[..c] + ": " + expression[c + 2..]
    ensures var c := IndexOf(expression, ": ");
      forall k :: !OccursAt(expression[..c], ": ", k)
  {
    var c := IndexOf(expression, ": ");
    var question := expression[..c];
    assert expression[c..c + 2] == ": ";
    assert expression == question + expression[c..c + 2] + expression[c + 2..];
    forall k
      ensures !OccursAt(question, ": ", k)
    {
      if OccursAt(question, ": ", k) {
        assert expression[k..k + 2] == question[k..k + 2];
        assert OccursAt(expression, ": ", k);
      }
    }
  }

  /**
   * With ": " present, the question is the text before it; a remainder with one '=' yields
   * "question: left = ?" and its trimmed left side, any other remainder is kept whole.
   */
  lemma {:induction false} ParseWithQuestion(expression: string)
    requires IndexOf(expression, ": ") != -1
    ensures var c := IndexOf(expression, ": ");
      OneEquals(expression[c + 2..]) ==>
        var r := ParseExerciseExpression(expression);
        r.0 == Some(expression[..c] + ": " + r.1 + " = ?") && '=' !in r.1 && Trim(r.1) == r.1
    ensures var c := IndexOf(expression, ": ");
      !OneEquals(expression[c + 2..]) ==>
        ParseExerciseExpression(expression) == (Some(expression[..c]), expression[c + 2..])
  {
    var c := IndexOf(expression, ": ");
    if OneEquals(expression[c + 2..]) {
      LeftSideLaws(expression[c + 2..]);
    }
  }

  /** Without ": ", one '=' yields "left = ?" and the trimmed left side; anything else is unchanged. */
  lemma {:induction false} ParseWithoutQuestion(expression: string)
    requires IndexOf(expression, ": ") == -1
    ensures OneEquals(expression) ==>
      var r := ParseExerciseExpression(expression);
      r.0 == Some(r.1 + " = ?") && '=' !in r.1 && Trim(r.1) == r.1
    ensures !OneEquals(expression) ==> ParseExerciseExpression(expression) == (None, expression)
  {
    if OneEquals(expression) {
      LeftSideLaws(expression);
    }
  }

  /** generateExerciseInstance, as a value. */
  function Instance(id: int, e: Exercise, labels: Labels, vars: LinkedMap<string, int>): ExerciseInstance
  {
    var processed := Processed(e.expression, labels, vars);
    var parsed := ParseExerciseExpression(processed);
    ExerciseInstance(id, e.expression, processed, parsed.0, parsed.1, e.tags, vars)
  }

  /** mapIndexed over generateExerciseInstance: the instances numbered from 1 in order. */
  function Instances(exs: seq<Exercise>, labels: Labels, vars: LinkedMap<string, int>): (r: seq<ExerciseInstance>)
    ensures |r| == |exs|
    decreases |exs|
  {
    if exs == [] then []
    else
      var n := |exs| - 1;
      Instances(exs[..n], labels, vars) + [Instance(n + 1, exs[n], labels, vars)]
  }

  /** Instance i of the list is exercise i, numbered i + 1. */
  lemma {:induction false} InstanceAt(exs: seq<Exercise>, labels: Labels, vars: LinkedMap<string, int>, i: nat)
    requires i < |exs|
    ensures Instances(exs, labels, vars)[i] == Instance(i + 1, exs[i], labels, vars)
    decreases |exs|
  {
    var n := |exs| - 1;
    var prev := Instances(exs[..n], labels, vars);
    var last := Instance(n + 1, exs[n], labels, vars);
    assert Instances(exs, labels, vars) == prev + [last];
    if i < n {
      InstanceAt(exs[..n], labels, vars, i);
      assert exs[..n][i] == exs[i];
      assert (prev + [last])[i] == prev[i];
    }
  }

  /**
   * An exercise offered for one selected type carries that type; for PLUS it carries PLUS
   * and nothing else.
   */
  lemma {:induction false} OfferedCarriesTag(exs: seq<Exercise>, tag: Tag, labels: Labels,
                                             vars: LinkedMap<string, int>, instance: ExerciseInstance)
    requires instance in Instances(Matching(exs, {tag}, tag == Plus), labels, vars)
    ensures tag == Plus ==> TagSet(instance.tags) == {Plus}
    ensures tag != Plus ==> tag in instance.tags
  {
    var m := Matching(exs, {tag}, tag == Plus);
    var offered := Instances(m, labels, vars);
    var i :| 0 <= i < |offered| && offered[i] == instance;
    InstanceAt(m, labels, vars, i);
    assert instance.tags == m[i].tags;
    assert m[i] in m;
  }

  // ---------------------------------------------------------------------------
  // Answers

  /** The tolerance verifyAnswer allows. */
  const AnswerTolerance: real := 0.0001

  /** error of IRVerificationResult: "VM calculation failed: " and the test's message, if any. */
  datatype VerificationError = CalculationFailed(cause: Option<Failure>)

  /** IRVerificationResult; a NaN correctAnswer is None, and debugInfo is left out. */
  datatype VerificationResult = VerificationResult(
    isCorrect: bool,
    correctAnswer: Option<real>,
    userAnswer: real,
    vmSteps: nat,
    error: Option<VerificationError>)

  /** The verdict on `user` given the machine's test result t for the mathematical expression. */
  function Verdict(user: real, t: ExecutionResult): (r: VerificationResult)
    ensures r.userAnswer == user
    ensures r.isCorrect <==> (t.isValid && t.result.Some? && t.result.value.ExpressionResult?
                              && -AnswerTolerance < user - t.result.value.result < AnswerTolerance)
    ensures r.correctAnswer.Some? <==> t.isValid && t.result.Some? && t.result.value.ExpressionResult?
    ensures r.correctAnswer.Some? ==> r.correctAnswer.value == t.result.value.result && r.error.None?
    ensures r.correctAnswer.None? ==> r.error == Some(CalculationFailed(t.errorMessage)) && !r.isCorrect
  {
    if t.isValid && t.result.Some? && t.result.value.ExpressionResult? then
      var correct := t.result.value.result;
      VerificationResult(Abs(user - correct) < AnswerTolerance, Some(correct), user, t.vmSteps, None)
    else
      VerificationResult(false, None, user, 0, Some(CalculationFailed(t.errorMessage)))
  }

  /**
   * For an integer's decimal text the machine's value is that integer: the answer is
   * accepted exactly when it lies within the tolerance of it.
   */
  lemma {:induction false} IntegerAnswer(v: int, user: real, table: LinkedMap<string, real>, pow: (real, real) -> real)
    ensures Verdict(user, TestResult(IntToString(v), [], table, pow)).isCorrect
        <==> -AnswerTolerance < user - v as real < AnswerTolerance
    ensures Verdict(v as real, TestResult(IntToString(v), [], table, pow)).isCorrect
  {
    IntegerTest(v, table, pow);
  }

  // ---------------------------------------------------------------------------
  // The class

  class ExerciseGenerator {
    const il: IntermediateLanguage
    const vm: EducationalVM

    constructor(il: IntermediateLanguage, vm: EducationalVM)
      ensures this.il == il && this.vm == vm
    {
      this.il := il;
      this.vm := vm;
    }

    /**
     * getExercisesByTag: redraws the variables (None when nextInt throws), then keeps the
     * exercises that match (exactly {PLUS} for a lone PLUS, any shared tag otherwise) and
     * numbers their instances 1..n in payload order.
     */
    method GetExercisesByTag(selected: set<Tag>) returns (r: Option<seq<ExerciseInstance>>, ghost values: seq<int>)
      modifies vm, vm.machine
      ensures vm.Valid()
      ensures r.Some? <==> AllDrawable(vm.il.randGenerators)
      ensures r.Some? ==> IsDraw(vm.variables, vm.il.randGenerators)
      ensures r.Some? ==> r.value == Instances(Matching(il.exercises, selected, PlusAlone(selected)), vm.il.labels, vm.variables)
      ensures DrawnFrom(vm.il.randGenerators, values, vm.variables, r.Some?,
                        old(vm.machine.CurrentState()), vm.machine.CurrentState())
    {
      var drawn;
      drawn, values := Redraw();
      if !drawn {
        return None, values;
      }
      var exact := Plus in selected && |selected| == 1;
      var instances := InstancesOf(Matching(il.exercises, selected, exact));
      r := Some(instances);
    }

    /** generateNewExercises: like getExercisesByTag, but always with the any-shared-tag rule. */
    method GenerateNewExercises(selected: set<Tag>) returns (r: Option<seq<ExerciseInstance>>, ghost values: seq<int>)
      modifies vm, vm.machine
      ensures vm.Valid()
      ensures r.Some? <==> AllDrawable(vm.il.randGenerators)
      ensures r.Some? ==> IsDraw(vm.variables, vm.il.randGenerators)
      ensures r.Some? ==> r.value == Instances(Matching(il.exercises, selected, false), vm.il.labels, vm.variables)
      ensures DrawnFrom(vm.il.randGenerators, values, vm.variables, r.Some?,
                        old(vm.machine.CurrentState()), vm.machine.CurrentState())
    {
      var drawn;
      drawn, values := Redraw();
      if !drawn {
        return None, values;
      }
      var instances := InstancesOf(Matching(il.exercises, selected, false));
      r := Some(instances);
    }

    /**
     * vm.initializeVariables(), reporting whether it returned rather than threw; `values`
     * are the draws it made.
     */
    method Redraw() returns (drawn: bool, ghost values: seq<int>)
      modifies vm, vm.machine
      ensures vm.Valid()
      ensures drawn <==> AllDrawable(vm.il.randGenerators)
      ensures drawn ==> IsDraw(vm.variables, vm.il.randGenerators)
      ensures DrawnFrom(vm.il.randGenerators, values, vm.variables, drawn,
                        old(vm.machine.CurrentState()), vm.machine.CurrentState())
    {
      var draw;
      draw, values := vm.InitializeVariables();
      drawn := draw.Drew?;
      if drawn {
        forall i | 0 <= i < |vm.il.randGenerators|
          ensures Drawable(vm.il.randGenerators[i].1)
        {
          assert InRange(values[i], vm.il.randGenerators[i].1);
        }
      }
    }

    /** mapIndexed { index, exercise -> generateExerciseInstance(index + 1, exercise) }. */
    method InstancesOf(exercises: seq<Exercise>) returns (instances: seq<ExerciseInstance>)
      ensures instances == Instances(exercises, vm.il.labels, vm.variables)
    {
      var labels, variables := vm.il.labels, vm.variables;
      instances := [];
      for k := 0 to |exercises|
        invariant instances == Instances(exercises[..k], labels, variables)
      {
        assert exercises[..k + 1][..k] == exercises[..k];
        var instance := GenerateExerciseInstance(k + 1, exercises[k]);
        instances := instances + [instance];
      }
      assert exercises[..|exercises|] == exercises;
    }

    /** generateExerciseInstance: label placeholders first, then variable names, then the split. */
    method GenerateExerciseInstance(id: int, exercise: Exercise) returns (instance: ExerciseInstance)
      ensures instance == Instance(id, exercise, vm.il.labels, vm.variables)
    {
      var variables := vm.variables;
      var labels := vm.il.labels;
      var processed := exercise.expression;
      for k := 0 to |labels|
        invariant processed == LabelsReplaced(exercise.expression, labels[..k])
      {
        assert labels[..k + 1][..k] == labels[..k];
        var word := Placeholder(labels[k].0);
        if word.Some? {
          processed := Replace(processed, word.value, labels[k].1);
        }
      }
      assert labels[..|labels|] == labels;
      ghost var afterLabels := processed;
      for k := 0 to |variables|
        invariant processed == Substituted(afterLabels, variables[..k])
      {
        assert variables[..k + 1][..k] == variables[..k];
        processed := Replace(processed, variables[k].0, IntToString(variables[k].1));
      }
      assert variables[..|variables|] == variables;
      var parsed := ParseExerciseExpression(processed);
      instance := ExerciseInstance(id, exercise.expression, processed, parsed.0, parsed.1, exercise.tags, variables);
    }

    /** verifyAnswer: the machine's test of the mathematical expression, judged with the tolerance. */
    method VerifyAnswer(userAnswer: real, exercise: ExerciseInstance) returns (r: VerificationResult)
      modifies vm.machine
      ensures r == Verdict(userAnswer, TestResult(exercise.mathExpression, vm.variables,
                                                  PutAll(old(vm.machine.variables), vm.variables), vm.machine.pow))
      ensures vm.machine.CurrentState() == StateAfterTest(exercise.mathExpression, vm.variables,
                                                     old(vm.machine.CurrentState()), vm.machine.pow)
    {
      var t := vm.TestExpression(exercise.mathExpression);
      if t.isValid && t.result.Some? && t.result.value.ExpressionResult? {
        var correctAnswer := t.result.value.result;
        return VerificationResult(Abs(userAnswer - correctAnswer) < AnswerTolerance, Some(correctAnswer),
                                  userAnswer, t.vmSteps, None);
      }
      r := VerificationResult(false, None, userAnswer, 0, Some(CalculationFailed(t.errorMessage)));
    }
  }
}
