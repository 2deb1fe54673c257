/**
 * The two view models: AppViewModel.kt holds the decoded payload, the machine and the
 * batch of results the screens show; ExerciseViewModel.kt holds the exercise on screen
 * and the verdict on the last answer.
 */
module ViewModels {
  import opened Common
  import opened LinkedMaps
  import opened BitReading
  import opened PayloadFormat
  import opened StackMachine
  import opened MachineLaws
  import opened BinaryDecoder
  import opened EducationalMachine
  import opened ExerciseGeneration

  /** executeExercises' results for a table drawn into a fresh machine. */
  ghost predicate BatchOf(results: seq<ExecutionResult>, il: IntermediateLanguage,
                          vars: LinkedMap<string, int>, table: LinkedMap<string, real>,
                          pow: (real, real) -> real)
  {
    |results| == |il.exercises|
    && forall i :: 0 <= i < |results| ==>
         results[i] == ExerciseResult(i + 1, il.exercises[i].expression, vars, table, pow)
  }

  /** The instances getExercisesByTag(setOf(tag)) returns once the draw has succeeded. */
  ghost function Offered(g: ExerciseGenerator, tag: Tag): seq<ExerciseInstance>
    reads g.vm
  {
    Instances(Matching(g.il.exercises, {tag}, tag == Plus), g.vm.il.labels, g.vm.variables)
  }

  /** Whether generateExercise puts a new exercise on screen: a generator, a draw, an exercise. */
  ghost predicate Shown(g: ExerciseGenerator?, tag: Tag)
    reads if g == null then {} else {g.vm}
  {
    g != null && AllDrawable(g.vm.il.randGenerators) && Offered(g, tag) != []
  }

  /**
   * The part of processQRData after decoding: a new machine, a draw and a batch of
   * results, or null when a range cannot be drawn from (nextInt throws).
   */
  method Launch(il: IntermediateLanguage, pow: (real, real) -> real) returns (vm: EducationalVM?, results: seq<ExecutionResult>)
    ensures vm == null <==> !AllDrawable(il.randGenerators)
    ensures vm != null ==> fresh(vm) && fresh(vm.machine) && vm.il == il && vm.Valid() && vm.machine.pow == pow
    ensures vm != null ==> IsDraw(vm.variables, il.randGenerators)
    ensures vm != null ==> BatchOf(results, il, vm.variables, PutAll([], vm.variables), pow)
  {
    vm := new EducationalVM(il, pow);
    var draw, values := vm.InitializeVariables();
    if draw.EmptyRange? {
      return null, [];
    }
    forall i | 0 <= i < |il.randGenerators|
      ensures Drawable(il.randGenerators[i].1)
    {
      assert InRange(values[i], il.randGenerators[i].1);
    }
    PutAllTwice([], vm.variables);
    results := vm.ExecuteExercises();
  }

  class AppViewModel {
    var variables: LinkedMap<string, int>
    var executionResults: seq<ExecutionResult>
    var labels: Labels
    var solutions: seq<Solution>
    var isDataReady: bool
    var currentVM: EducationalVM?
    var currentIL: Option<IntermediateLanguage>
    /** Math.pow, which the machine is given. */
    const pow: (real, real) -> real

    /**
     * A kept machine runs the kept payload, its table has one entry per name, and every
     * range of the payload can be drawn from (processQRData keeps nothing else).
     */
    ghost predicate Valid()
      reads this, currentVM
    {
      currentVM != null ==>
        currentIL == Some(currentVM.il) && currentVM.Valid() && AllDrawable(currentVM.il.randGenerators)
    }

    constructor(pow: (real, real) -> real)
      ensures Valid() && this.pow == pow
      ensures variables == [] && executionResults == [] && labels == [] && solutions == []
      ensures !isDataReady && currentVM == null && currentIL == None
    {
      variables, executionResults, labels, solutions := [], [], [], [];
      isDataReady := false;
      currentVM, currentIL := null, None;
      this.pow := pow;
    }

    /**
     * processQRData: decode, draw, run every exercise, then publish it all. A decode error
     * or an empty range only clears isDataReady.
     */
    method ProcessQRData(bytes: seq<Byte>)
      requires Valid()
      modifies this
      ensures Valid()
      ensures isDataReady <==> Decode(bytes).Ok? && AllDrawable(Decode(bytes).value.randGenerators)
      ensures isDataReady ==> currentIL == Some(Decode(bytes).value)
      ensures !isDataReady ==>
        variables == old(variables) && executionResults == old(executionResults) && labels == old(labels)
        && solutions == old(solutions) && currentVM == old(currentVM) && currentIL == old(currentIL)
      ensures isDataReady ==> currentVM != null && fresh(currentVM) && fresh(currentVM.machine)
      ensures isDataReady ==> labels == currentVM.il.labels && solutions == currentVM.il.solutions
      ensures isDataReady ==> variables == currentVM.variables && IsDraw(variables, currentVM.il.randGenerators)
      ensures isDataReady ==> BatchOf(executionResults, currentVM.il, variables, PutAll([], variables), pow)
    {
      var decoded := DecodePayload(bytes);
      Load(decoded);
    }

    /** The part of processQRData after decode: a decode error only clears isDataReady. */
    method Load(decoded: Result<IntermediateLanguage>)
      requires Valid()
      modifies this
      ensures Valid()
      ensures isDataReady <==> decoded.Ok? && AllDrawable(decoded.value.randGenerators)
      ensures isDataReady ==> currentIL == Some(decoded.value)
      ensures !isDataReady ==>
        variables == old(variables) && executionResults == old(executionResults) && labels == old(labels)
        && solutions == old(solutions) && currentVM == old(currentVM) && currentIL == old(currentIL)
      ensures isDataReady ==> currentVM != null && fresh(currentVM) && fresh(currentVM.machine)
      ensures isDataReady ==> labels == currentVM.il.labels && solutions == currentVM.il.solutions
      ensures isDataReady ==> variables == currentVM.variables && IsDraw(variables, currentVM.il.randGenerators)
      ensures isDataReady ==> BatchOf(executionResults, currentVM.il, variables, PutAll([], variables), pow)
    {
      if decoded.Err? {
        isDataReady := false;
        return;
      }
      var il := decoded.value;
      var vm, results := Launch(il, pow);
      if vm == null {
        isDataReady := false;
        return;
      }
      currentVM, currentIL := vm, Some(il);
      variables, executionResults := vm.variables, results;
      labels, solutions := il.labels, il.solutions;
      isDataReady := true;
    }

    /**
     * regenerateVariables: with a kept machine, a new draw and a new batch of results.
     * There is no try here, and none is needed: every kept payload's ranges can be drawn.
     */
    method RegenerateVariables()
      requires Valid()
      modifies this, if currentVM == null then {} else {currentVM, currentVM.machine}
      ensures Valid()
      ensures currentVM == old(currentVM) && currentIL == old(currentIL)
      ensures labels == old(labels) && solutions == old(solutions) && isDataReady == old(isDataReady)
      ensures currentVM == null ==> variables == old(variables) && executionResults == old(executionResults)
      ensures currentVM != null ==>
        variables == currentVM.variables && IsDraw(variables, currentVM.il.randGenerators)
      ensures currentVM != null ==>
        BatchOf(executionResults, currentVM.il, variables,
                PutAll(old(currentVM.machine.variables), variables), currentVM.machine.pow)
    {
      var vm := currentVM;
      if vm == null || currentIL.None? {
        return;
      }
      var draw, values := vm.InitializeVariables();
      if draw.EmptyRange? {
        assert false;
      }
      PutAllTwice(old(vm.machine.variables), vm.variables);
      var results := vm.ExecuteExercises();
      variables, executionResults := draw.values, results;
    }

    /** resetData: back to the state before any scan. */
    method ResetData()
      modifies this
      ensures Valid()
      ensures variables == [] && executionResults == [] && labels == [] && solutions == []
      ensures !isDataReady && currentVM == null && currentIL == None
    {
      variables, executionResults, labels, solutions := [], [], [], [];
      isDataReady := false;
      currentVM, currentIL := null, None;
    }
  }

  class ExerciseViewModel {
    var currentExercise: Option<ExerciseInstance>
    var showResult: bool
    var verificationResult: Option<VerificationResult>
    var generator: ExerciseGenerator?

    constructor()
      ensures currentExercise == None && !showResult && verificationResult == None && generator == null
    {
      currentExercise, showResult, verificationResult, generator := None, false, None, null;
    }

    /** initializeGenerator: a generator over the given payload and machine. */
    method InitializeGenerator(il: IntermediateLanguage, vm: EducationalVM)
      modifies this
      ensures generator != null && fresh(generator) && generator.il == il && generator.vm == vm
      ensures currentExercise == old(currentExercise) && showResult == old(showResult)
      ensures verificationResult == old(verificationResult)
    {
      generator := new ExerciseGenerator(il, vm);
    }

    /**
     * generateExercise: a random one of the exercises getExercisesByTag(setOf(tag)) offers,
     * shown without a verdict; when there is none, or the draw throws, nothing on screen
     * changes. The pick is left open: any index below the count.
     */
    method GenerateExercise(tag: Tag)
      modifies this, if generator == null then {} else {generator.vm, generator.vm.machine}
      ensures generator == old(generator)
      ensures generator != null ==> generator.vm.Valid()
      ensures generator != null && AllDrawable(generator.vm.il.randGenerators) ==>
        IsDraw(generator.vm.variables, generator.vm.il.randGenerators)
      ensures generator != null && AllDrawable(generator.vm.il.randGenerators) ==>
        generator.vm.machine.CurrentState() == old(generator.vm.machine.CurrentState())
          .(variables := PutAll(old(generator.vm.machine.variables), generator.vm.variables))
      ensures generator != null && !AllDrawable(generator.vm.il.randGenerators) ==>
        generator.vm.machine.CurrentState() == old(generator.vm.machine.CurrentState())
      ensures !Shown(generator, tag) ==>
        currentExercise == old(currentExercise) && showResult == old(showResult)
        && verificationResult == old(verificationResult)
      ensures Shown(generator, tag) ==>
        currentExercise.Some? && currentExercise.value in Offered(generator, tag)
        && !showResult && verificationResult == None
      ensures Shown(generator, tag) && tag == Plus ==> TagSet(currentExercise.value.tags) == {Plus}
      ensures Shown(generator, tag) && tag != Plus ==> tag in currentExercise.value.tags
    {
      var g := generator;
      if g == null {
        return;
      }
      PlusAloneIsSingleton({tag});
      var exercises;
      ghost var values;
      exercises, values := g.GetExercisesByTag({tag});
      if exercises.Some? && exercises.value != [] {
        Show(exercises.value);
        OfferedCarriesTag(g.il.exercises, tag, g.vm.il.labels, g.vm.variables, currentExercise.value);
      }
    }

    /** A random one of the offered exercises goes on screen, without a verdict. */
    method Show(offered: seq<ExerciseInstance>)
      requires offered != []
      modifies this
      ensures generator == old(generator)
      ensures currentExercise.Some? && currentExercise.value in offered && !showResult && verificationResult == None
    {
      var randomIndex :| 0 <= randomIndex < |offered|;
      currentExercise := Some(offered[randomIndex]);
      showResult := false;
      verificationResult := None;
    }

    /** submitAnswer: the generator's verdict on the answer, then the result is shown. */
    method SubmitAnswer(userAnswer: real, exercise: ExerciseInstance)
      modifies this, if generator == null then {} else {generator.vm.machine}
      ensures generator == old(generator) && currentExercise == old(currentExercise)
      ensures generator == null ==> showResult == old(showResult) && verificationResult == old(verificationResult)
      ensures generator != null ==> showResult
      ensures generator != null ==> verificationResult == Some(Verdict(userAnswer,
        TestResult(exercise.mathExpression, generator.vm.variables,
                   PutAll(old(generator.vm.machine.variables), generator.vm.variables), generator.vm.machine.pow)))
      ensures generator != null ==>
        generator.vm.machine.CurrentState() == StateAfterTest(exercise.mathExpression, generator.vm.variables,
                                   old(generator.vm.machine.CurrentState()), generator.vm.machine.pow)
    {
      var g := generator;
      if g == null {
        return;
      }
      var result := g.VerifyAnswer(userAnswer, exercise);
      verificationResult := Some(result);
      showResult := true;
    }
  }
}
