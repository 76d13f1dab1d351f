/** The evaluation loop: conditionals, counters and limits (script/src/interpreter.rs, `eval_script`). */
module Interpreter {
  import opened Primitives
  import opened Script
  import opened Signatures
  import opened Operations

  /** A machine with the operation counter and the conditional stack. */
  datatype State = State(machine: Machine, ops: nat, exec: seq<bool>)

  predicate Executing(exec: seq<bool>) {
    forall i :: 0 <= i < |exec| ==> exec[i]
  }

  predicate IsConditional(op: byte) {
    OP_IF <= op <= OP_ENDIF
  }

  // ---------------------------------------------------------------------------------------------
  // One instruction.

  /** The checks made before anything is executed; `Ok` is the new operation count. */
  function Screen(env: Env, executing: bool, ops: nat, op: byte, data: Option<Element>): (r: Result<nat, ScriptError>)
    ensures r.Ok? ==> ops <= r.value <= ops + 1 && (IsCountable(op) ==> r.value == ops + 1 <= MAX_OPS_PER_SCRIPT)
    ensures r.Ok? && data.Some? ==> |data.value| <= MAX_SCRIPT_ELEMENT_SIZE
  {
    var count := if IsCountable(op) then ops + 1 else ops;
    if data.Some? && |data.value| > MAX_SCRIPT_ELEMENT_SIZE then Err(PushSize)
    else if data.Some? && executing && env.flags.verifyMinimaldata && !CheckMinimalPush(data.value, op) then Err(Minimaldata)
    else if IsCountable(op) && count > MAX_OPS_PER_SCRIPT then Err(OpCount)
    else if IsDisabled(op, env.flags) then Err(DisabledOpcode(op))
    else Ok(count)
  }

  /** The taken branch of an `IF` or `NOTIF`. */
  function Condition(m: Machine, op: byte): Result<(bool, Machine), ScriptError> {
    if m.stack == [] then Err(UnbalancedConditional)
    else
      var top := CastToBool(m.stack[|m.stack| - 1]);
      Ok((if op == OP_NOTIF then !top else top, m.(stack := m.stack[..|m.stack| - 1])))
  }

  function Control(st: State, op: byte): Result<State, ScriptError> {
    if op == OP_IF || op == OP_NOTIF then
      if Executing(st.exec) then
        var c :- Condition(st.machine, op);
        Ok(st.(machine := c.1, exec := st.exec + [c.0]))
      else Ok(st.(exec := st.exec + [false]))
    else if op == OP_ELSE || op == OP_ENDIF then
      if st.exec == [] then Err(UnbalancedConditional)
      else if op == OP_ELSE then Ok(st.(exec := st.exec[|st.exec| - 1 := !st.exec[|st.exec| - 1]]))
      else Ok(st.(exec := st.exec[..|st.exec| - 1]))
    else Err(DisabledOpcode(op)) // VERIF, VERNOTIF
  }

  function Execute(env: Env, script: seq<byte>, st: State, op: byte, data: Option<Element>, next: nat): Result<State, ScriptError> {
    if IsConditional(op) then Control(st, op)
    else
      var m :- ExecOp(env, script, st.machine, op, data, next);
      Ok(st.(machine := m))
  }

  function Sized(st: State): Result<State, ScriptError> {
    if |st.machine.stack| + |st.machine.alt| > MAX_STACK_SIZE then Err(StackSize) else Ok(st)
  }

  /** One iteration of the loop. */
  function Step(env: Env, script: seq<byte>, st: State, t: Token): Result<State, ScriptError> {
    var executing := Executing(st.exec);
    if t.Bad? then
      if executing then Err(BadOpcode) else Ok(st)
    else
      var count :- Screen(env, executing, st.ops, t.op, t.data);
      var counted := st.(ops := count);
      if !executing && !IsConditional(t.op) then Ok(counted)
      else
        var after :- Execute(env, script, counted, t.op, t.data, t.next);
        Sized(after)
  }

  // ---------------------------------------------------------------------------------------------
  // Whole scripts.

  function Run(env: Env, script: seq<byte>, st: State, ts: seq<Token>): Result<State, ScriptError>
    decreases |ts|
  {
    if ts == [] then Ok(st)
    else
      var next :- Step(env, script, st, ts[0]);
      Run(env, script, next, ts[1..])
  }

  lemma {:induction false} RunCons(env: Env, script: seq<byte>, st: State, t: Token, tail: seq<Token>)
    ensures var r := Step(env, script, st, t);
            Run(env, script, st, [t] + tail) == if r.Err? then Err(r.error) else Run(env, script, r.value, tail)
  {
    assert ([t] + tail)[1..] == tail;
  }

  function Start(stack: seq<Element>): State {
    State(Machine(stack, [], 0), 0, [])
  }

  function IsTrue(stack: seq<Element>): bool {
    stack != [] && CastToBool(stack[|stack| - 1])
  }

  /** The result of a script on a stack: its truth value and the final stack. */
  function Eval(env: Env, script: seq<byte>, stack: seq<Element>): Result<(bool, seq<Element>), ScriptError> {
    if |script| > MAX_SCRIPT_SIZE then Err(ScriptSize)
    else
      var end :- Run(env, script, Start(stack), Tokens(script, 0));
      if end.exec != [] then Err(UnbalancedConditional)
      else Ok((IsTrue(end.machine.stack), end.machine.stack))
  }

  // ---------------------------------------------------------------------------------------------
  // Limits.

  /** What every iteration starts from and leaves behind. */
  ghost predicate WithinLimits(script: seq<byte>, st: State, pc: nat) {
    Fits(st.machine) && |st.exec| <= st.ops <= MAX_OPS_PER_SCRIPT && st.machine.begin <= pc <= |script|
  }

  lemma {:induction false} StepKeepsLimits(env: Env, script: seq<byte>, st: State, pc: nat)
    requires WithinLimits(script, st, pc) && pc < |script|
    ensures var t := TokenAt(script, pc);
            var r := Step(env, script, st, t);
            pc < t.next && (r.Ok? ==> WithinLimits(script, r.value, t.next))
  {
    hide ExecOp, GetInstruction, CheckMinimalPush, IsDisabled, AllFit, CastToBool;
    var t := TokenAt(script, pc);
    if t.Instr? {
      var executing := Executing(st.exec);
      var count := Screen(env, executing, st.ops, t.op, t.data);
      if count.Ok? && (executing || IsConditional(t.op)) {
        if IsConditional(t.op) {
          ControlFits(st, t.op);
        } else {
          ExecOpFits(env, script, st.machine, t.op, t.data, t.next);
        }
      }
    }
  }

  lemma {:induction false} ControlFits(st: State, op: byte)
    requires Fits(st.machine)
    ensures var r := Control(st, op);
            r.Ok? ==> Fits(r.value.machine) && r.value.machine.begin == st.machine.begin && r.value.ops == st.ops
                      && |r.value.exec| <= |st.exec| + 1
  {
  }

  /** Where the loop stands after `n` iterations. */
  function PositionAfter(script: seq<byte>, pc: nat, n: nat): nat
    decreases n
  {
    if n == 0 || pc >= |script| then pc else PositionAfter(script, TokenAt(script, pc).next, n - 1)
  }

  /** From a start within the limits, every iteration that is reached leaves a state within them,
      and the position grows with every iteration. */
  lemma {:induction false} RunsStayWithinLimits(env: Env, script: seq<byte>, st: State, pc: nat, n: nat)
    requires WithinLimits(script, st, pc) && n <= |Tokens(script, pc)|
    ensures var r := Run(env, script, st, Tokens(script, pc)[..n]);
            r.Ok? ==> WithinLimits(script, r.value, PositionAfter(script, pc, n))
    ensures pc + n <= PositionAfter(script, pc, n) <= |script|
    decreases n
  {
    if n > 0 {
      hide Step, WithinLimits, TokenAt;
      var t := TokenAt(script, pc);
      var ts, rest := Tokens(script, pc), Tokens(script, t.next);
      assert ts == [t] + rest;
      assert ts[..n][0] == t && ts[..n][1..] == rest[..n - 1];
      StepKeepsLimits(env, script, st, pc);
      var r := Step(env, script, st, t);
      if r.Ok? {
        RunsStayWithinLimits(env, script, r.value, t.next, n - 1);
      } else {
        PositionGrows(script, t.next, n - 1);
      }
    } else {
      StartsInside(script, st, pc);
    }
  }

  lemma {:induction false} StartsInside(script: seq<byte>, st: State, pc: nat)
    requires WithinLimits(script, st, pc)
    ensures st.machine.begin <= pc <= |script|
  {
  }

  lemma {:induction false} PositionGrows(script: seq<byte>, pc: nat, n: nat)
    requires pc <= |script| && n <= |Tokens(script, pc)|
    ensures pc + n <= PositionAfter(script, pc, n) <= |script|
    decreases n
  {
    if n > 0 {
      PositionGrows(script, TokenAt(script, pc).next, n - 1);
    }
  }

  // ---------------------------------------------------------------------------------------------
  // Screening: the checks that apply to every instruction, taken or not.

  /** Not disabled, not a conditional that is always invalid, and no push beyond the element limit. */
  predicate Permitted(env: Env, t: Token) {
    t.Instr? ==>
      !IsDisabled(t.op, env.flags) && t.op != OP_VERIF && t.op != OP_VERNOTIF &&
      (t.data.Some? ==> |t.data.value| <= MAX_SCRIPT_ELEMENT_SIZE)
  }

  function Counted(t: Token): nat {
    if t.Instr? && IsCountable(t.op) then 1 else 0
  }

  function CountOps(ts: seq<Token>): nat {
    if ts == [] then 0 else Counted(ts[0]) + CountOps(ts[1..])
  }

  lemma {:induction false} StepScreens(env: Env, script: seq<byte>, st: State, t: Token)
    ensures var r := Step(env, script, st, t);
            r.Ok? ==> Permitted(env, t) && r.value.ops == st.ops + Counted(t) && (Counted(t) == 1 ==> r.value.ops <= MAX_OPS_PER_SCRIPT)
  {
    hide ExecOp, CheckMinimalPush, IsDisabled, CastToBool;
  }

  lemma {:induction false} RunScreens(env: Env, script: seq<byte>, st: State, ts: seq<Token>)
    requires st.ops <= MAX_OPS_PER_SCRIPT
    ensures var r := Run(env, script, st, ts);
            r.Ok? ==> (forall i :: 0 <= i < |ts| ==> Permitted(env, ts[i])) && r.value.ops == st.ops + CountOps(ts) <= MAX_OPS_PER_SCRIPT
    decreases |ts|
  {
    hide Step, Permitted;
    if ts != [] {
      StepScreens(env, script, st, ts[0]);
      var next := Step(env, script, st, ts[0]);
      if next.Ok? {
        RunScreens(env, script, next.value, ts[1..]);
        assert forall i :: 0 < i < |ts| ==> ts[i] == ts[1..][i - 1];
      }
    }
  }

  /** A script that succeeds has at most 201 counted opcodes and only permitted instructions, also in the
      branches it did not take. */
  lemma {:induction false} OkImpliesScreened(env: Env, script: seq<byte>, stack: seq<Element>)
    requires Eval(env, script, stack).Ok?
    ensures |script| <= MAX_SCRIPT_SIZE && CountOps(Tokens(script, 0)) <= MAX_OPS_PER_SCRIPT
    ensures forall i :: 0 <= i < |Tokens(script, 0)| ==> Permitted(env, Tokens(script, 0)[i])
  {
    hide Step, Tokens, Permitted;
    RunScreens(env, script, Start(stack), Tokens(script, 0));
  }

  // ---------------------------------------------------------------------------------------------
  // The loop.

  /** The conditional opcodes, which are executed even in a branch that is not taken. */
  method ExecConditional(opcode: byte, conditions: seq<bool>, elements: seq<Element>, ghost st: State)
    returns (r: Result<(seq<bool>, seq<Element>), ScriptError>)
    requires IsConditional(opcode) && st.exec == conditions && st.machine.stack == elements
    ensures Control(st, opcode) == if r.Err? then Err(r.error)
                                   else Ok(State(st.machine.(stack := r.value.1), st.ops, r.value.0))
  {
    hide CastToBool;
    var execStack, stack := conditions, elements;
    if opcode == OP_IF || opcode == OP_NOTIF {
      var execValue := false;
      if Executing(execStack) {
        if stack == [] {
          return Err(UnbalancedConditional);
        }
        execValue := CastToBool(stack[|stack| - 1]);
        stack := stack[..|stack| - 1];
        if opcode == OP_NOTIF {
          execValue := !execValue;
        }
      }
      execStack := execStack + [execValue];
    } else if opcode == OP_ELSE {
      if execStack == [] {
        return Err(UnbalancedConditional);
      }
      execStack := execStack[|execStack| - 1 := !execStack[|execStack| - 1]];
    } else if opcode == OP_ENDIF {
      if execStack == [] {
        return Err(UnbalancedConditional);
      }
      execStack := execStack[..|execStack| - 1];
    } else {
      return Err(DisabledOpcode(opcode));
    }
    r := Ok((execStack, stack));
  }

  /** The body of the loop. */
  method RunInstruction(env: Env, script: seq<byte>, pc: nat, st: State) returns (r: Result<State, ScriptError>, next: nat)
    requires st.machine.begin <= pc < |script|
    ensures r == Step(env, script, st, TokenAt(script, pc)) && next == TokenAt(script, pc).next
    ensures pc < next <= |script| && (WithinLimits(script, st, pc) && r.Ok? ==> WithinLimits(script, r.value, next))
  {
    if WithinLimits(script, st, pc) {
      StepKeepsLimits(env, script, st, pc);
    }
    hide WithinLimits;
    hide GetInstruction, ExecOp, Screen, Control, Executing;
    var executing := Executing(st.exec);
    var instruction := GetInstruction(script, pc);
    if instruction.Err? {
      return if executing then Err(BadOpcode) else Ok(st), pc + 1;
    }
    var opcode, data := instruction.value.opcode, instruction.value.data;
    next := pc + instruction.value.step;
    var count := Screen(env, executing, st.ops, opcode, data);
    if count.Err? {
      return Err(count.error), next;
    }
    var opCount, execStack, stack, altstack, begincode := count.value, st.exec, st.machine.stack, st.machine.alt, st.machine.begin;
    if !(executing || IsConditional(opcode)) {
      return Ok(st.(ops := opCount)), next;
    }
    if IsConditional(opcode) {
      var after := ExecConditional(opcode, execStack, stack, st.(ops := opCount));
      if after.Err? {
        return Err(after.error), next;
      }
      execStack, stack := after.value.0, after.value.1;
    } else {
      var after := ExecOp(env, script, Machine(stack, altstack, begincode), opcode, data, next);
      if after.Err? {
        return Err(after.error), next;
      }
      stack, altstack, begincode := after.value.stack, after.value.alt, after.value.begin;
    }
    if |stack| + |altstack| > MAX_STACK_SIZE {
      return Err(StackSize), next;
    }
    r := Ok(State(Machine(stack, altstack, begincode), opCount, execStack));
  }

  /** Computes `Eval`, within the limits throughout when it starts within them. */
  method EvalScript(env: Env, script: seq<byte>, stack: seq<Element>) returns (r: Result<(bool, seq<Element>), ScriptError>)
    ensures r == Eval(env, script, stack)
    ensures |stack| <= MAX_STACK_SIZE && AllFit(stack) && r.Ok? ==> |r.value.1| <= MAX_STACK_SIZE && AllFit(r.value.1)
  {
    if |script| > MAX_SCRIPT_SIZE {
      return Err(ScriptSize);
    }
    var pc, st := 0, Start(stack);
    ghost var fits := |stack| <= MAX_STACK_SIZE && AllFit(stack);
    while pc < |script|
      invariant st.machine.begin <= pc <= |script|
      invariant Run(env, script, Start(stack), Tokens(script, 0)) == Run(env, script, st, Tokens(script, pc))
      invariant fits ==> WithinLimits(script, st, pc)
      decreases |script| - pc
    {
      hide Run, Step, Tokens, TokenAt, WithinLimits, AllFit;
      NextToken(env, script, st, pc);
      var after, next := RunInstruction(env, script, pc, st);
      if after.Err? {
        return Err(after.error);
      }
      pc, st := next, after.value;
    }
    if st.exec != [] {
      return Err(UnbalancedConditional);
    }
    assert fits ==> Fits(st.machine);
    r := Ok((IsTrue(st.machine.stack), st.machine.stack));
  }

  lemma {:induction false} NextToken(env: Env, script: seq<byte>, st: State, pc: nat)
    requires pc < |script| && st.machine.begin <= pc
    ensures var t := TokenAt(script, pc);
            var r := Step(env, script, st, t);
            t.next <= |script| &&
            (r.Ok? ==> r.value.machine.begin <= t.next) &&
            Run(env, script, st, Tokens(script, pc)) == if r.Ok? then Run(env, script, r.value, Tokens(script, t.next)) else Err(r.error)
  {
    hide ExecOp, Screen, GetInstruction;
    var t := TokenAt(script, pc);
    var ts, rest := Tokens(script, pc), Tokens(script, t.next);
    assert ts == [t] + rest && ts[0] == t && ts[1..] == rest;
    if t.Instr? {
      CodeStart(env, script, st.machine, t.op, t.data, t.next);
    }
  }
}
