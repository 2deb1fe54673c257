/** What the instruction semantics and the execution loop of the stack machine guarantee. */
module MachineLaws {
  import opened Common
  import opened LinkedMaps
  import opened StackMachine

  /**
   * A binary instruction fails with fewer than two values, and Div also when the top is
   * zero; otherwise it pops b (the top) and a (below it) and pushes exactly one value,
   * leaving the rest of the stack, the variables, the PC and the running flag alone.
   */
  lemma {:induction false} BinaryPopsTwoPushesOne(st: State, i: Instruction, pow: (real, real) -> real)
    requires IsBinary(i)
    ensures |st.stack| < 2 ==> Exec(st, i, pow) == Fault(StackUnderflow(i), st)
    ensures |st.stack| >= 2 && i.Div? && Top(st.stack) == 0.0 ==>
      Exec(st, i, pow) == Fault(DivisionByZero, st.(stack := st.stack[..|st.stack| - 2]))
    ensures Exec(st, i, pow).Normal? <==> |st.stack| >= 2 && !(i.Div? && Top(st.stack) == 0.0)
    ensures Exec(st, i, pow).Normal? ==>
      var n, s := |st.stack|, Exec(st, i, pow).state;
      |s.stack| == n - 1 && s.stack[..n - 2] == st.stack[..n - 2]
      && s.stack[n - 2] == BinaryValue(i, st.stack[n - 2], st.stack[n - 1], pow)
      && s.variables == st.variables && s.pc == st.pc && s.running == st.running
  {
  }

  /** Equal pushes 1.0 exactly when the operands are closer than 0.0001; NotEqual is its complement. */
  lemma {:induction false} EqualWithinTolerance(a: real, b: real, pow: (real, real) -> real)
    ensures BinaryValue(Equal, a, b, pow) == 1.0 <==> -0.0001 < a - b < 0.0001
    ensures BinaryValue(Equal, a, b, pow) + BinaryValue(NotEqual, a, b, pow) == 1.0
    ensures BinaryValue(Equal, a, b, pow) == BinaryValue(Equal, b, a, pow)
  {
  }

  /** A lone Add fails on its first fetch: no step is counted and the stack stays empty. */
  lemma {:induction false} AddOnlyFails(vars: LinkedMap<string, real>, pow: (real, real) -> real)
    ensures Run([Add], Start(vars), pow) == Fault(StackUnderflow(Add), Start(vars))
    ensures var r := CreateResult(Program([Add], false, "+"), Run([Add], Start(vars), pow));
      !r.success && r.executionSteps == 0 && r.finalStack == []
  {
  }

  /** Halt is counted as a step and stops the loop. */
  lemma {:induction false} HaltIsCounted(vars: LinkedMap<string, real>, pow: (real, real) -> real)
    ensures Run([Halt], Start(vars), pow) == Normal(State([], vars, 1, false, 1))
  {
  }

  /** Dividing by zero fails after the two pushes; both operands are gone from the stack. */
  lemma {:induction false} DivisionByZeroFails(vars: LinkedMap<string, real>, pow: (real, real) -> real)
    ensures Run([Push(5.0), Push(0.0), Div, Halt], Start(vars), pow)
         == Fault(DivisionByZero, State([], vars, 2, true, 2))
  {
    var code := [Push(5.0), Push(0.0), Div, Halt];
    var s1 := State([5.0], vars, 1, true, 1);
    var s2 := State([5.0, 0.0], vars, 2, true, 2);
    assert Exec(Start(vars), code[0], pow) == Normal(s1.(pc := 0, steps := 0));
    assert Run(code, Start(vars), pow) == Run(code, s1, pow);
    assert Exec(s1, code[1], pow) == Normal(s2.(pc := 1, steps := 1));
    assert Run(code, s1, pow) == Run(code, s2, pow);
    assert s2.stack[..0] == [];
  }

  /** An instruction that executes normally is counted and the loop moves on to the next PC. */
  lemma {:induction false} NormalStep(code: seq<Instruction>, st: State, s: State, pow: (real, real) -> real)
    requires st.running && 0 <= st.pc < |code| && st.steps < StepLimit
    requires Exec(st, code[st.pc], pow) == Normal(s)
    ensures Run(code, st, pow) == Run(code, s.(pc := s.pc + 1, steps := s.steps + 1), pow)
  {
  }

  /** A taken unconditional jump costs one step and makes `address` the next fetched instruction. */
  lemma {:induction false} JumpLands(code: seq<Instruction>, st: State, pow: (real, real) -> real)
    requires st.running && 0 <= st.pc < |code| && code[st.pc].Jump?
    requires st.steps < StepLimit
    ensures Run(code, st, pow) == Run(code, st.(pc := code[st.pc].address, steps := st.steps + 1), pow)
  {
  }

  /**
   * JumpIfFalse pops the condition and, when it is 0.0, continues at `address`; otherwise
   * at the next instruction. On an empty stack it fails without counting a step.
   */
  lemma {:induction false} JumpIfFalseLands(code: seq<Instruction>, st: State, pow: (real, real) -> real)
    requires st.running && 0 <= st.pc < |code| && code[st.pc].JumpIfFalse?
    requires st.steps < StepLimit
    ensures st.stack == [] ==> Run(code, st, pow) == Fault(StackUnderflow(code[st.pc]), st)
    ensures st.stack != [] ==> Run(code, st, pow) == Run(code, st.(
      stack := Popped(st.stack),
      pc := if Top(st.stack) == 0.0 then code[st.pc].address else st.pc + 1,
      steps := st.steps + 1), pow)
  {
  }

  /** JumpIfTrue is the mirror image: it jumps when the popped condition is not 0.0. */
  lemma {:induction false} JumpIfTrueLands(code: seq<Instruction>, st: State, pow: (real, real) -> real)
    requires st.running && 0 <= st.pc < |code| && code[st.pc].JumpIfTrue?
    requires st.steps < StepLimit
    ensures st.stack == [] ==> Run(code, st, pow) == Fault(StackUnderflow(code[st.pc]), st)
    ensures st.stack != [] ==> Run(code, st, pow) == Run(code, st.(
      stack := Popped(st.stack),
      pc := if Top(st.stack) != 0.0 then code[st.pc].address else st.pc + 1,
      steps := st.steps + 1), pow)
  {
  }

  /** A jump to itself never halts: the loop stops with the step-limit error after 10001 steps. */
  lemma {:induction false} SelfJumpHitsLimit(vars: LinkedMap<string, real>, k: nat, pow: (real, real) -> real)
    requires k <= StepLimit
    ensures Run([Jump(0)], State([], vars, 0, true, k), pow)
         == Fault(StepLimitExceeded, State([], vars, 0, true, StepLimit + 1))
    decreases StepLimit - k
  {
    if k < StepLimit {
      SelfJumpHitsLimit(vars, k + 1, pow);
    }
  }

  predicate NoStore(code: seq<Instruction>)
  {
    forall k :: 0 <= k < |code| ==> !code[k].StoreVar?
  }

  /** Only StoreVar writes the variable table, so code without it leaves the table as it was. */
  lemma {:induction false} NoStoreKeepsVariables(code: seq<Instruction>, st: State, pow: (real, real) -> real)
    requires NoStore(code) && st.steps <= StepLimit
    ensures Run(code, st, pow).state.variables == st.variables
    decreases StepLimit + 1 - st.steps
  {
    if st.running && 0 <= st.pc < |code| {
      var e := Exec(st, code[st.pc], pow);
      ExecKeepsVariables(st, code[st.pc], pow);
      if e.Normal? {
        var s' := e.state.(pc := e.state.pc + 1, steps := e.state.steps + 1);
        if s'.steps <= StepLimit {
          NoStoreKeepsVariables(code, s', pow);
        }
      }
    }
  }

  /** One instruction other than StoreVar leaves the table as it was. */
  lemma ExecKeepsVariables(st: State, i: Instruction, pow: (real, real) -> real)
    requires !i.StoreVar?
    ensures Exec(st, i, pow).state.variables == st.variables
  {
  }

  /** After setVariables(vars) the table holds every value of vars, as a real, under its name. */
  lemma {:induction false} PutAllGet(m: LinkedMap<string, real>, vars: LinkedMap<string, int>)
    requires UniqueKeys(vars)
    ensures forall i :: 0 <= i < |vars| ==> Get(PutAll(m, vars), vars[i].0) == Some(vars[i].1 as real)
    decreases |vars|
  {
    if vars != [] {
      var n := |vars| - 1;
      var init := vars[..n];
      assert UniqueKeys(init) by {
        forall i, j | 0 <= i < j < n ensures init[i].0 != init[j].0 {
          assert init[i] == vars[i] && init[j] == vars[j];
        }
      }
      PutAllGet(m, init);
      var before := PutAll(m, init);
      assert PutAll(m, vars) == Put(before, vars[n].0, vars[n].1 as real);
      PutGet(before, vars[n].0, vars[n].1 as real);
      forall i | 0 <= i < |vars| ensures Get(PutAll(m, vars), vars[i].0) == Some(vars[i].1 as real) {
        if i < n {
          assert init[i] == vars[i];
          assert vars[i].0 != vars[n].0;
          assert Get(before, vars[i].0) == Some(vars[i].1 as real);
        }
      }
    }
  }

  /** setVariables with values the table already holds leaves the table as it is. */
  lemma {:induction false} PutAllHeld(m: LinkedMap<string, real>, vars: LinkedMap<string, int>)
    requires forall i :: 0 <= i < |vars| ==> Get(m, vars[i].0) == Some(vars[i].1 as real)
    ensures PutAll(m, vars) == m
    decreases |vars|
  {
    if vars != [] {
      var n := |vars| - 1;
      var init := vars[..n];
      assert forall i :: 0 <= i < n ==> init[i] == vars[i];
      PutAllHeld(m, init);
      PutSame(m, vars[n].0, vars[n].1 as real);
    }
  }

  /** Setting the same variable table twice is setting it once. */
  lemma {:induction false} PutAllTwice(m: LinkedMap<string, real>, vars: LinkedMap<string, int>)
    requires UniqueKeys(vars)
    ensures PutAll(PutAll(m, vars), vars) == PutAll(m, vars)
  {
    PutAllGet(m, vars);
    PutAllHeld(PutAll(m, vars), vars);
  }
}
