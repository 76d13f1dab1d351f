/** Conditionals as nested blocks: the flat loop with its conditional stack against a recursive
    evaluator that runs the branches taken (script/src/interpreter.rs, `eval_script`). */
module Conditionals {
  import opened Primitives
  import opened Script
  import opened Signatures
  import opened Operations
  import opened Interpreter

  /** `open branches ENDIF rest`, where the branches are separated by any number of `ELSE`s. */
  datatype Block =
    | Nil
    | Plain(token: Token, rest: Block)
    | Cond(open: Token, branches: Branches, rest: Block)

  datatype Branches =
    | Last(body: Block, close: Token)
    | More(body: Block, middle: Token, others: Branches)

  predicate IsOpen(t: Token) {
    t.Instr? && (t.op == OP_IF || t.op == OP_NOTIF)
  }

  predicate IsElse(t: Token) {
    t.Instr? && t.op == OP_ELSE
  }

  predicate IsClose(t: Token) {
    t.Instr? && t.op == OP_ENDIF
  }

  function Flatten(b: Block): seq<Token> {
    match b
    case Nil => []
    case Plain(t, rest) => [t] + Flatten(rest)
    case Cond(open, branches, rest) => [open] + FlattenBranches(branches) + Flatten(rest)
  }

  function FlattenBranches(br: Branches): seq<Token> {
    match br
    case Last(body, close) => Flatten(body) + [close]
    case More(body, middle, others) => Flatten(body) + [middle] + FlattenBranches(others)
  }

  predicate WellFormed(b: Block) {
    match b
    case Nil => true
    case Plain(t, rest) => !IsOpen(t) && !IsElse(t) && !IsClose(t) && WellFormed(rest)
    case Cond(open, branches, rest) => IsOpen(open) && WellFormedBranches(branches) && WellFormed(rest)
  }

  predicate WellFormedBranches(br: Branches) {
    match br
    case Last(body, close) => WellFormed(body) && IsClose(close)
    case More(body, middle, others) => WellFormed(body) && IsElse(middle) && WellFormedBranches(others)
  }

  // ---------------------------------------------------------------------------------------------
  // The recursive evaluator. It carries the machine and the operation count, and no conditional stack.

  datatype Progress = Progress(machine: Machine, ops: nat)

  function SizeChecked(p: Progress): Result<Progress, ScriptError> {
    if |p.machine.stack| + |p.machine.alt| > MAX_STACK_SIZE then Err(StackSize) else Ok(p)
  }

  /** An instruction that is not a conditional, executed. */
  function RunPlain(env: Env, script: seq<byte>, p: Progress, t: Token): Result<Progress, ScriptError> {
    if t.Bad? then Err(BadOpcode)
    else
      var ops :- Screen(env, true, p.ops, t.op, t.data);
      if t.op == OP_VERIF || t.op == OP_VERNOTIF then Err(DisabledOpcode(t.op))
      else
        var m :- ExecOp(env, script, p.machine, t.op, t.data, t.next);
        SizeChecked(Progress(m, ops))
  }

  /** The same, passed over: counted and screened, but not executed. */
  function SkipPlain(env: Env, p: Progress, t: Token): Result<Progress, ScriptError> {
    if t.Bad? then Ok(p)
    else
      var ops :- Screen(env, false, p.ops, t.op, t.data);
      if t.op == OP_VERIF || t.op == OP_VERNOTIF then Err(DisabledOpcode(t.op))
      else Ok(p.(ops := ops))
  }

  /** The conditional opcode itself is counted and screened whether or not anything runs. */
  function Marker(env: Env, executing: bool, p: Progress, t: Token): Result<Progress, ScriptError>
    requires t.Instr?
  {
    var ops :- Screen(env, executing, p.ops, t.op, t.data);
    SizeChecked(p.(ops := ops))
  }

  function RunBlock(env: Env, script: seq<byte>, p: Progress, b: Block): Result<Progress, ScriptError>
    requires WellFormed(b)
    decreases b
  {
    match b
    case Nil => Ok(p)
    case Plain(t, rest) =>
      var q :- RunPlain(env, script, p, t);
      RunBlock(env, script, q, rest)
    case Cond(open, branches, rest) =>
      var ops :- Screen(env, true, p.ops, open.op, open.data);
      var c :- Condition(p.machine, open.op);
      var q :- SizeChecked(Progress(c.1, ops));
      var r :- RunBranches(env, script, q, branches, c.0);
      RunBlock(env, script, r, rest)
  }

  /** Every other branch is taken, starting with the first or the second. */
  function RunBranches(env: Env, script: seq<byte>, p: Progress, br: Branches, taken: bool): Result<Progress, ScriptError>
    requires WellFormedBranches(br)
    decreases br
  {
    match br
    case Last(body, close) =>
      var q :- if taken then RunBlock(env, script, p, body) else SkipBlock(env, p, body);
      Marker(env, taken, q, close)
    case More(body, middle, others) =>
      var q :- if taken then RunBlock(env, script, p, body) else SkipBlock(env, p, body);
      var r :- Marker(env, taken, q, middle);
      RunBranches(env, script, r, others, !taken)
  }

  function SkipBlock(env: Env, p: Progress, b: Block): Result<Progress, ScriptError>
    requires WellFormed(b)
    decreases b
  {
    match b
    case Nil => Ok(p)
    case Plain(t, rest) =>
      var q :- SkipPlain(env, p, t);
      SkipBlock(env, q, rest)
    case Cond(open, branches, rest) =>
      var q :- Marker(env, false, p, open);
      var r :- SkipBranches(env, q, branches);
      SkipBlock(env, r, rest)
  }

  function SkipBranches(env: Env, p: Progress, br: Branches): Result<Progress, ScriptError>
    requires WellFormedBranches(br)
    decreases br
  {
    match br
    case Last(body, close) =>
      var q :- SkipBlock(env, p, body);
      Marker(env, false, q, close)
    case More(body, middle, others) =>
      var q :- SkipBlock(env, p, body);
      var r :- Marker(env, false, q, middle);
      SkipBranches(env, r, others)
  }

  function EvalBlock(env: Env, script: seq<byte>, b: Block, stack: seq<Element>): Result<(bool, seq<Element>), ScriptError>
    requires WellFormed(b)
  {
    var end :- RunBlock(env, script, Progress(Machine(stack, [], 0), 0), b);
    Ok((IsTrue(end.machine.stack), end.machine.stack))
  }

  // ---------------------------------------------------------------------------------------------
  // The two agree.

  function Flat(p: Progress, exec: seq<bool>): State {
    State(p.machine, p.ops, exec)
  }

  /** The flat run of what follows a part of the script whose recursive result is `r`. */
  function Continue(env: Env, script: seq<byte>, r: Result<Progress, ScriptError>, exec: seq<bool>, tail: seq<Token>): Result<State, ScriptError> {
    match r
    case Err(e) => Err(e)
    case Ok(p) => Run(env, script, Flat(p, exec), tail)
  }

  lemma {:induction false} PlainSteps(env: Env, script: seq<byte>, p: Progress, exec: seq<bool>, t: Token)
    requires !IsOpen(t) && !IsElse(t) && !IsClose(t)
    ensures var q := if Executing(exec) then RunPlain(env, script, p, t) else SkipPlain(env, p, t);
            Step(env, script, Flat(p, exec), t) == if q.Err? then Err(q.error) else Ok(Flat(q.value, exec))
  {
    hide ExecOp, Screen;
  }

  lemma {:induction false} OpenSteps(env: Env, script: seq<byte>, p: Progress, exec: seq<bool>, t: Token)
    requires IsOpen(t)
    ensures var r := Step(env, script, Flat(p, exec), t);
            if Executing(exec) then
              var ops := Screen(env, true, p.ops, t.op, t.data);
              var c := Condition(p.machine, t.op);
              if ops.Err? then r == Err(ops.error)
              else if c.Err? then r == Err(c.error)
              else
                var q := SizeChecked(Progress(c.value.1, ops.value));
                r == if q.Err? then Err(q.error) else Ok(Flat(q.value, exec + [c.value.0]))
            else
              var q := Marker(env, false, p, t);
              r == if q.Err? then Err(q.error) else Ok(Flat(q.value, exec + [false]))
  {
    hide ExecOp, Screen;
  }

  lemma {:induction false} MarkerSteps(env: Env, script: seq<byte>, p: Progress, exec: seq<bool>, c: bool, t: Token)
    requires IsElse(t) || IsClose(t)
    ensures var q := Marker(env, Executing(exec + [c]), p, t);
            var exec' := if IsElse(t) then exec + [!c] else exec;
            Step(env, script, Flat(p, exec + [c]), t) == if q.Err? then Err(q.error) else Ok(Flat(q.value, exec'))
  {
    hide ExecOp, Screen;
    var all := exec + [c];
    assert all[..|all| - 1] == exec;
    assert all[|all| - 1 := !c] == exec + [!c];
  }

  lemma {:induction false} Nested(exec: seq<bool>, c: bool)
    ensures Executing(exec + [c]) <==> Executing(exec) && c
  {
    var all := exec + [c];
    assert all[|exec|] == c;
    if Executing(all) {
      assert forall i :: 0 <= i < |exec| ==> all[i] == exec[i];
    }
  }

  /** A block under conditions that all hold is run, and under any other conditions passed over. */
  lemma {:induction false} BlockAgrees(env: Env, script: seq<byte>, p: Progress, exec: seq<bool>, b: Block, tail: seq<Token>)
    requires WellFormed(b)
    ensures Run(env, script, Flat(p, exec), Flatten(b) + tail) ==
            Continue(env, script, if Executing(exec) then RunBlock(env, script, p, b) else SkipBlock(env, p, b), exec, tail)
    decreases b
  {
    hide Step, Run, Screen, Condition, Executing, RunPlain, SkipPlain;
    match b
    case Nil =>
      assert [] + tail == tail;
    case Plain(t, rest) =>
      assert Flatten(b) + tail == [t] + (Flatten(rest) + tail);
      RunCons(env, script, Flat(p, exec), t, Flatten(rest) + tail);
      PlainSteps(env, script, p, exec, t);
      var q := if Executing(exec) then RunPlain(env, script, p, t) else SkipPlain(env, p, t);
      if q.Ok? {
        BlockAgrees(env, script, q.value, exec, rest, tail);
      }
    case Cond(open, branches, rest) =>
      CondAgrees(env, script, p, exec, b, tail);
  }

  lemma {:induction false} CondAgrees(env: Env, script: seq<byte>, p: Progress, exec: seq<bool>, b: Block, tail: seq<Token>)
    requires b.Cond? && WellFormed(b)
    ensures Run(env, script, Flat(p, exec), Flatten(b) + tail) ==
            Continue(env, script, if Executing(exec) then RunBlock(env, script, p, b) else SkipBlock(env, p, b), exec, tail)
    decreases b, 0
  {
    hide Step, Run, Screen, Condition, Executing, RunBranches, SkipBranches, Flatten, FlattenBranches;
    var Cond(open, branches, rest) := b;
    var after := Flatten(rest) + tail;
    FlattenCond(b, tail);
    RunCons(env, script, Flat(p, exec), open, FlattenBranches(branches) + after);
    OpenSteps(env, script, p, exec, open);
    var s := Step(env, script, Flat(p, exec), open);
    if s.Ok? {
      var q, c := Progress(s.value.machine, s.value.ops), s.value.exec[|exec|];
      assert s.value == Flat(q, exec + [c]);
      BranchesAgree(env, script, q, exec, branches, c, after);
      var r := if Executing(exec) then RunBranches(env, script, q, branches, c) else SkipBranches(env, q, branches);
      if r.Ok? {
        BlockAgrees(env, script, r.value, exec, rest, tail);
      }
    }
  }

  lemma {:induction false} FlattenCond(b: Block, tail: seq<Token>)
    requires b.Cond?
    ensures Flatten(b) + tail == [b.open] + (FlattenBranches(b.branches) + (Flatten(b.rest) + tail))
  {
  }

  lemma {:induction false} FlattenMarked(br: Branches, tail: seq<Token>)
    ensures FlattenBranches(br) + tail ==
            if br.Last? then Flatten(br.body) + ([br.close] + tail)
            else Flatten(br.body) + ([br.middle] + (FlattenBranches(br.others) + tail))
  {
  }

  lemma {:induction false} BranchesAgree(
    env: Env, script: seq<byte>, p: Progress, exec: seq<bool>, br: Branches, taken: bool, tail: seq<Token>)
    requires WellFormedBranches(br)
    ensures Run(env, script, Flat(p, exec + [taken]), FlattenBranches(br) + tail) ==
            Continue(env, script, if Executing(exec) then RunBranches(env, script, p, br, taken) else SkipBranches(env, p, br), exec, tail)
    decreases br
  {
    hide Step, Run, Screen, Executing, RunBlock, SkipBlock, Flatten, FlattenBranches, Marker;
    Nested(exec, taken);
    FlattenMarked(br, tail);
    var all := exec + [taken];
    var runs := Executing(exec) && taken;
    var marker := if br.Last? then br.close else br.middle;
    var after := if br.Last? then tail else FlattenBranches(br.others) + tail;
    BlockAgrees(env, script, p, all, br.body, [marker] + after);
    var q := if runs then RunBlock(env, script, p, br.body) else SkipBlock(env, p, br.body);
    if q.Ok? {
      RunCons(env, script, Flat(q.value, all), marker, after);
      MarkerSteps(env, script, q.value, exec, taken, marker);
      var r := Marker(env, runs, q.value, marker);
      if r.Ok? && br.More? {
        BranchesAgree(env, script, r.value, exec, br.others, !taken, tail);
      }
    }
  }

  /** On a script that parses into blocks, the loop gives what the recursive evaluator gives. */
  lemma {:induction false} FlatMatchesRecursive(env: Env, script: seq<byte>, b: Block, stack: seq<Element>)
    requires WellFormed(b) && Flatten(b) == Tokens(script, 0) && |script| <= MAX_SCRIPT_SIZE
    ensures Eval(env, script, stack) == EvalBlock(env, script, b, stack)
  {
    hide Step, RunBlock, SkipBlock;
    assert Flatten(b) + [] == Tokens(script, 0);
    assert Executing([]);
    BlockAgrees(env, script, Progress(Machine(stack, [], 0), 0), [], b, []);
  }

  // ---------------------------------------------------------------------------------------------
  // A script that ends well parses.

  /** Nesting from depth `d` down to zero: no stray `ELSE` or `ENDIF`, nothing left open. */
  predicate Balanced(ts: seq<Token>, d: nat)
    decreases |ts|
  {
    if ts == [] then d == 0
    else if IsOpen(ts[0]) then Balanced(ts[1..], d + 1)
    else if IsElse(ts[0]) then d > 0 && Balanced(ts[1..], d)
    else if IsClose(ts[0]) then d > 0 && Balanced(ts[1..], d - 1)
    else Balanced(ts[1..], d)
  }

  lemma {:induction false} StepDepth(env: Env, script: seq<byte>, st: State, t: Token)
    ensures var r := Step(env, script, st, t);
            r.Ok? ==>
              |r.value.exec| == (if IsOpen(t) then |st.exec| + 1 else if IsClose(t) then |st.exec| - 1 else |st.exec|) &&
              (IsElse(t) || IsClose(t) ==> st.exec != [])
  {
    hide ExecOp, Screen, CastToBool;
  }

  /** A run that ends with an empty conditional stack was balanced. */
  lemma {:induction false} RunsBalance(env: Env, script: seq<byte>, st: State, ts: seq<Token>)
    requires var r := Run(env, script, st, ts); r.Ok? && r.value.exec == []
    ensures Balanced(ts, |st.exec|)
    decreases |ts|
  {
    hide Step;
    if ts != [] {
      StepDepth(env, script, st, ts[0]);
      RunsBalance(env, script, Step(env, script, st, ts[0]).value, ts[1..]);
    }
  }

  /** Reads blocks up to the end of the enclosing branch, or to the end of the script. */
  lemma {:induction false} ParseBlock(ts: seq<Token>, d: nat) returns (b: Block, rest: seq<Token>)
    requires Balanced(ts, d)
    ensures WellFormed(b) && ts == Flatten(b) + rest && Balanced(rest, d) && |rest| <= |ts|
    ensures if d == 0 then rest == [] else rest != [] && (IsElse(rest[0]) || IsClose(rest[0]))
    decreases |ts|, 0
  {
    if ts == [] || IsElse(ts[0]) || IsClose(ts[0]) {
      b, rest := Nil, ts;
    } else if IsOpen(ts[0]) {
      var branches, after := ParseBranches(ts[1..], d + 1);
      b, rest := ParseBlock(after, d);
      b := Cond(ts[0], branches, b);
      assert ts == [ts[0]] + ts[1..];
    } else {
      b, rest := ParseBlock(ts[1..], d);
      b := Plain(ts[0], b);
      assert ts == [ts[0]] + ts[1..];
    }
  }

  lemma {:induction false} ParseBranches(ts: seq<Token>, d: nat) returns (br: Branches, rest: seq<Token>)
    requires Balanced(ts, d) && d > 0
    ensures WellFormedBranches(br) && ts == FlattenBranches(br) + rest && Balanced(rest, d - 1) && |rest| <= |ts|
    decreases |ts|, 1
  {
    var body, after := ParseBlock(ts, d);
    assert after == [after[0]] + after[1..];
    if IsClose(after[0]) {
      br, rest := Last(body, after[0]), after[1..];
    } else {
      br, rest := ParseBranches(after[1..], d);
      br := More(body, after[0], br);
    }
  }

  ghost predicate Parses(ts: seq<Token>) {
    exists b :: WellFormed(b) && Flatten(b) == ts
  }

  /** The scripts that parse are exactly the balanced ones. */
  lemma {:induction false} ParsesIffBalanced(ts: seq<Token>)
    ensures Parses(ts) <==> Balanced(ts, 0)
  {
    if Balanced(ts, 0) {
      var b, rest := ParseBlock(ts, 0);
      assert ts == Flatten(b);
    }
    forall b | WellFormed(b) && Flatten(b) == ts
      ensures Balanced(ts, 0)
    {
      BlockBalanced(b, 0, []);
      assert Flatten(b) + [] == ts;
    }
  }

  lemma {:induction false} BlockBalanced(b: Block, d: nat, tail: seq<Token>)
    requires WellFormed(b)
    ensures Balanced(Flatten(b) + tail, d) <==> Balanced(tail, d)
    decreases b
  {
    match b
    case Nil =>
      assert Flatten(b) + tail == tail;
    case Plain(t, rest) =>
      assert (Flatten(b) + tail)[1..] == Flatten(rest) + tail;
      BlockBalanced(rest, d, tail);
    case Cond(open, branches, rest) =>
      FlattenCond(b, tail);
      assert (Flatten(b) + tail)[1..] == FlattenBranches(branches) + (Flatten(rest) + tail);
      BranchesBalanced(branches, d, Flatten(rest) + tail);
      BlockBalanced(rest, d, tail);
  }

  lemma {:induction false} BranchesBalanced(br: Branches, d: nat, tail: seq<Token>)
    requires WellFormedBranches(br)
    ensures Balanced(FlattenBranches(br) + tail, d + 1) <==> Balanced(tail, d)
    decreases br
  {
    FlattenMarked(br, tail);
    var marker := if br.Last? then br.close else br.middle;
    var after := if br.Last? then tail else FlattenBranches(br.others) + tail;
    BlockBalanced(br.body, d + 1, [marker] + after);
    assert ([marker] + after)[1..] == after;
    if br.More? {
      BranchesBalanced(br.others, d, tail);
    }
  }

  /** Whatever evaluates without an error has balanced conditionals, and the recursive evaluator on its
      blocks gives the same truth value and stack. */
  lemma {:induction false} OkImpliesBalanced(env: Env, script: seq<byte>, stack: seq<Element>)
    requires Eval(env, script, stack).Ok?
    ensures Parses(Tokens(script, 0))
    ensures exists b :: WellFormed(b) && Flatten(b) == Tokens(script, 0) && EvalBlock(env, script, b, stack) == Eval(env, script, stack)
  {
    hide Step;
    RunsBalance(env, script, Start(stack), Tokens(script, 0));
    ParsesIffBalanced(Tokens(script, 0));
    var b :| WellFormed(b) && Flatten(b) == Tokens(script, 0);
    FlatMatchesRecursive(env, script, b, stack);
  }
}
