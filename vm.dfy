/**
 * The stack virtual machine of EduVM.kt: its instruction set, the effect of one
 * instruction (Exec), the fetch/execute loop (Run) and the result record built at the
 * end (CreateResult); then the StackVirtualMachine class, whose methods update the
 * machine's fields in place and are proved to follow those functions.
 *
 * Values are reals (Double rounding is not modelled) and Math.pow is the machine's
 * `pow` parameter, a total function on reals about which nothing is assumed.
 */
module StackMachine {
  import opened Common
  import opened LinkedMaps

  datatype Instruction =
    | Push(value: real) | Pop | Dup | Swap
    | Add | Sub | Mul | Div | Pow | Neg
    | Equal | NotEqual | Greater | Less
    | LoadVar(name: string) | StoreVar(name: string)
    | Jump(address: int) | JumpIfFalse(address: int) | JumpIfTrue(address: int)
    | Halt | Nop

  /** A program; `isEquation` is the "isEquation" metadata entry (absent means false). */
  datatype Program = Program(instructions: seq<Instruction>, isEquation: bool, originalExpression: string)

  /** The exceptions execute catches, one per message the machine can produce. */
  datatype MachineError =
    | StackUnderflow(on: Instruction)
    | DivisionByZero
    | UndefinedVariable(name: string)
    | IndexOutOfBounds(index: int)
    | StepLimitExceeded

  /** The machine's fields: stack, variable table, program counter, running flag, step count. */
  datatype State = State(stack: seq<real>, variables: LinkedMap<string, real>, pc: int, running: bool, steps: nat)

  /** Normal: the instruction (or the run) finished; Fault: it threw, leaving `state` behind. */
  datatype Outcome = Normal(state: State) | Fault(error: MachineError, state: State)

  const StepLimit: nat := 10000
  const Tolerance: real := 0.0001

  function Abs(x: real): real { if x < 0.0 then -x else x }

  predicate IsBinary(i: Instruction)
  {
    i.Add? || i.Sub? || i.Mul? || i.Div? || i.Pow? || i.Equal? || i.NotEqual? || i.Greater? || i.Less?
  }

  /** The value a binary instruction pushes for operands a (second) and b (top). */
  function BinaryValue(i: Instruction, a: real, b: real, pow: (real, real) -> real): real
    requires IsBinary(i) && !(i.Div? && b == 0.0)
  {
    match i
    case Add => a + b
    case Sub => a - b
    case Mul => a * b
    case Div => a / b
    case Pow => pow(a, b)
    case Equal => if Abs(a - b) < Tolerance then 1.0 else 0.0
    case NotEqual => if Abs(a - b) >= Tolerance then 1.0 else 0.0
    case Greater => if a > b then 1.0 else 0.0
    case Less => if a < b then 1.0 else 0.0
  }

  function Top(s: seq<real>): real requires |s| > 0 { s[|s| - 1] }
  function Popped(s: seq<real>): seq<real> requires |s| > 0 { s[..|s| - 1] }

  /** executeInstruction: the effect of one instruction; it never touches the step count. */
  function Exec(st: State, i: Instruction, pow: (real, real) -> real): (r: Outcome)
    ensures r.state.steps == st.steps
  {
    var n := |st.stack|;
    match i
    case Push(v) => Normal(st.(stack := st.stack + [v]))
    case Pop => if n == 0 then Fault(StackUnderflow(i), st) else Normal(st.(stack := Popped(st.stack)))
    case Dup => if n == 0 then Fault(StackUnderflow(i), st) else Normal(st.(stack := st.stack + [Top(st.stack)]))
    case Swap =>
      if n < 2 then Fault(StackUnderflow(i), st)
      else Normal(st.(stack := st.stack[..n - 2] + [st.stack[n - 1], st.stack[n - 2]]))
    case Neg => if n == 0 then Fault(StackUnderflow(i), st) else Normal(st.(stack := Popped(st.stack) + [-Top(st.stack)]))
    case LoadVar(name) =>
      var value := Get(st.variables, name);
      if value.None? then Fault(UndefinedVariable(name), st) else Normal(st.(stack := st.stack + [value.value]))
    case StoreVar(name) =>
      if n == 0 then Fault(StackUnderflow(i), st)
      else Normal(st.(stack := Popped(st.stack), variables := Put(st.variables, name, Top(st.stack))))
    case Jump(a) => Normal(st.(pc := a - 1))
    case JumpIfFalse(a) =>
      if n == 0 then Fault(StackUnderflow(i), st)
      else Normal(st.(stack := Popped(st.stack), pc := if Top(st.stack) == 0.0 then a - 1 else st.pc))
    case JumpIfTrue(a) =>
      if n == 0 then Fault(StackUnderflow(i), st)
      else Normal(st.(stack := Popped(st.stack), pc := if Top(st.stack) != 0.0 then a - 1 else st.pc))
    case Halt => Normal(st.(running := false))
    case Nop => Normal(st)
    case _ => ExecBinary(st, i, pow)
  }

  /** The arithmetic and comparison instructions: pop b (top) and a, push one value. */
  function ExecBinary(st: State, i: Instruction, pow: (real, real) -> real): (r: Outcome)
    requires IsBinary(i)
    ensures r.state.steps == st.steps
  {
    var n := |st.stack|;
    if n < 2 then Fault(StackUnderflow(i), st)
    else
      var a, b := st.stack[n - 2], st.stack[n - 1];
      if i.Div? && b == 0.0 then Fault(DivisionByZero, st.(stack := st.stack[..n - 2]))
      else Normal(st.(stack := st.stack[..n - 2] + [BinaryValue(i, a, b, pow)]))
  }

  /** The state execute starts from: reset clears stack, PC and steps but keeps the variables. */
  function Start(variables: LinkedMap<string, real>): State
  {
    State([], variables, 0, true, 0)
  }

  /**
   * The loop of execute from state st: fetch at the PC (a negative PC is an index error),
   * execute, then count the step; more than StepLimit steps is an error.
   */
  function Run(code: seq<Instruction>, st: State, pow: (real, real) -> real): (r: Outcome)
    requires st.steps <= StepLimit
    ensures r.state.steps <= StepLimit + 1
    ensures r.Normal? ==> !r.state.running || r.state.pc >= |code|
    ensures r.Fault? && r.error == StepLimitExceeded ==> r.state.steps == StepLimit + 1
    decreases StepLimit + 1 - st.steps
  {
    if !st.running || st.pc >= |code| then Normal(st)
    else if st.pc < 0 then Fault(IndexOutOfBounds(st.pc), st)
    else
      match Exec(st, code[st.pc], pow)
      case Fault(e, s) => Fault(e, s)
      case Normal(s) =>
        var s' := s.(pc := s.pc + 1, steps := s.steps + 1);
        if s'.steps > StepLimit then Fault(StepLimitExceeded, s') else Run(code, s', pow)
  }

  /** VMExecutionResult (leftResult and rightResult are never set and are left out). */
  datatype VMExecutionResult = VMExecutionResult(
    success: bool,
    result: Option<real>,
    isEquation: bool,
    isEqual: Option<bool>,
    error: Option<MachineError>,
    executionSteps: nat,
    finalStack: seq<real>)

  /** createResult: the report for a run of `program` that ended in `out`. */
  function CreateResult(program: Program, out: Outcome): (r: VMExecutionResult)
    ensures r.success <==> out.Normal?
    ensures r.error.Some? <==> out.Fault?
    ensures out.Fault? ==> r.error == Some(out.error)
    ensures r.executionSteps == out.state.steps && r.finalStack == out.state.stack
    ensures r.isEquation <==> out.Normal? && program.isEquation
    ensures r.isEqual.Some? <==> r.isEquation
    ensures r.isEqual == Some(true) <==> r.isEquation && |out.state.stack| > 0 && Top(out.state.stack) == 1.0
    ensures r.result.Some? <==> out.Normal? && !program.isEquation
    ensures r.result.Some? && out.state.stack == [] ==> r.result.value == 0.0
    ensures r.result.Some? && out.state.stack != [] ==> r.result.value == Top(out.state.stack)
  {
    var st := out.state;
    var top := if |st.stack| > 0 then Top(st.stack) else 0.0;
    if out.Fault? then VMExecutionResult(false, None, false, None, Some(out.error), st.steps, st.stack)
    else if program.isEquation then VMExecutionResult(true, None, true, Some(top == 1.0), None, st.steps, st.stack)
    else VMExecutionResult(true, Some(top), false, None, None, st.steps, st.stack)
  }

  /** setVariables: each integer value is put, as a real, in the table's own order. */
  function PutAll(m: LinkedMap<string, real>, vars: LinkedMap<string, int>): LinkedMap<string, real>
    decreases |vars|
  {
    if vars == [] then m
    else
      var last := vars[|vars| - 1];
      Put(PutAll(m, vars[..|vars| - 1]), last.0, last.1 as real)
  }

  class StackVirtualMachine {
    var stack: seq<real>
    var variables: LinkedMap<string, real>
    var programCounter: int
    var running: bool
    var executionSteps: nat
    const pow: (real, real) -> real

    function CurrentState(): State
      reads this
    {
      State(stack, variables, programCounter, running, executionSteps)
    }

    constructor(pow: (real, real) -> real)
      ensures CurrentState() == State([], [], 0, false, 0) && this.pow == pow
    {
      stack := [];
      variables := [];
      programCounter := 0;
      running := false;
      executionSteps := 0;
      this.pow := pow;
    }

    /** execute: reset, then fetch/execute until Halt, the end of the code, or an error. */
    method Execute(program: Program) returns (r: VMExecutionResult)
      modifies this
      ensures r == CreateResult(program, Run(program.instructions, Start(old(variables)), pow))
      ensures CurrentState() == Run(program.instructions, Start(old(variables)), pow).state
    {
      ghost var code := program.instructions;
      ghost var spec := Run(code, Start(variables), pow);
      Reset();
      running := true;
      while running && programCounter < |program.instructions|
        invariant executionSteps <= StepLimit
        invariant Run(code, CurrentState(), pow) == spec
        decreases StepLimit + 1 - executionSteps
      {
        if programCounter < 0 {
          r := CreateResult(program, Fault(IndexOutOfBounds(programCounter), CurrentState()));
          return;
        }
        var error := ExecuteInstruction(program.instructions[programCounter]);
        if error.Some? {
          r := CreateResult(program, Fault(error.value, CurrentState()));
          return;
        }
        programCounter := programCounter + 1;
        executionSteps := executionSteps + 1;
        if executionSteps > StepLimit {
          r := CreateResult(program, Fault(StepLimitExceeded, CurrentState()));
          return;
        }
      }
      r := CreateResult(program, Normal(CurrentState()));
    }

    /** executeInstruction: updates the fields as Exec says, or reports the error it throws. */
    method ExecuteInstruction(i: Instruction) returns (error: Option<MachineError>)
      modifies this
      ensures error.None? <==> Exec(old(CurrentState()), i, pow).Normal?
      ensures error.Some? ==> error.value == Exec(old(CurrentState()), i, pow).error
      ensures CurrentState() == Exec(old(CurrentState()), i, pow).state
    {
      error := None;
      var n := |stack|;
      match i {
        case Push(v) => stack := stack + [v];
        case Pop =>
          if n == 0 { return Some(StackUnderflow(i)); }
          stack := stack[..n - 1];
        case Dup =>
          if n == 0 { return Some(StackUnderflow(i)); }
          stack := stack + [stack[n - 1]];
        case Swap =>
          if n < 2 { return Some(StackUnderflow(i)); }
          var a := stack[n - 1];
          var b := stack[n - 2];
          stack := stack[..n - 2] + [a, b];
        case Neg =>
          if n == 0 { return Some(StackUnderflow(i)); }
          var a := stack[n - 1];
          stack := stack[..n - 1] + [-a];
        case LoadVar(name) =>
          var value := Get(variables, name);
          if value.None? { return Some(UndefinedVariable(name)); }
          stack := stack + [value.value];
        case StoreVar(name) =>
          if n == 0 { return Some(StackUnderflow(i)); }
          var value := stack[n - 1];
          stack := stack[..n - 1];
          variables := Put(variables, name, value);
        case Jump(address) => programCounter := address - 1;
        case JumpIfFalse(address) =>
          if n == 0 { return Some(StackUnderflow(i)); }
          var condition := stack[n - 1];
          stack := stack[..n - 1];
          if condition == 0.0 { programCounter := address - 1; }
        case JumpIfTrue(address) =>
          if n == 0 { return Some(StackUnderflow(i)); }
          var condition := stack[n - 1];
          stack := stack[..n - 1];
          if condition != 0.0 { programCounter := address - 1; }
        case Halt => running := false;
        case Nop =>
        case _ =>
          if n < 2 { return Some(StackUnderflow(i)); }
          var b := stack[n - 1];
          var a := stack[n - 2];
          stack := stack[..n - 2];
          if i.Div? && b == 0.0 { return Some(DivisionByZero); }
          stack := stack + [BinaryValue(i, a, b, pow)];
      }
    }

    /** setVariable: variables[name] = value. */
    method SetVariable(name: string, value: real)
      modifies this
      ensures variables == Put(old(variables), name, value)
      ensures stack == old(stack) && programCounter == old(programCounter)
      ensures running == old(running) && executionSteps == old(executionSteps)
    {
      variables := Put(variables, name, value);
    }

    /** setVariables: every entry of vars, in order, converted to a real. */
    method SetVariables(vars: LinkedMap<string, int>)
      modifies this
      ensures variables == PutAll(old(variables), vars)
      ensures stack == old(stack) && programCounter == old(programCounter)
      ensures running == old(running) && executionSteps == old(executionSteps)
    {
      var k := 0;
      while k < |vars|
        invariant k <= |vars|
        invariant variables == PutAll(old(variables), vars[..k])
        invariant stack == old(stack) && programCounter == old(programCounter)
        invariant running == old(running) && executionSteps == old(executionSteps)
      {
        assert vars[..k + 1][..k] == vars[..k];
        SetVariable(vars[k].0, vars[k].1 as real);
        k := k + 1;
      }
      assert vars[..k] == vars;
    }

    /** reset: clears stack, PC, running flag and steps; the variables stay. */
    method Reset()
      modifies this
      ensures CurrentState() == State([], old(variables), 0, false, 0)
    {
      stack := [];
      programCounter := 0;
      running := false;
      executionSteps := 0;
    }
  }
}
