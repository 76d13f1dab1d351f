/** What a version 0 key-hash witness program accepts (BIP 141). */
module WitnessPrograms {
  import opened Primitives
  import opened Script
  import opened ScriptNum
  import opened ScriptStack
  import opened Signatures
  import opened Operations
  import opened Interpreter
  import opened VerifyScripts
  import opened PayToScriptHash

  lemma {:induction false} KeyHashTokens(program: seq<byte>)
    requires |program| == 20
    ensures Tokens(KeyHashScript(program), 0) ==
            [Instr(OP_DUP, None, 1), Instr(OP_HASH160, None, 2)] +
            [Instr(OP_PUSHBYTES_20, Some(program), 23), Instr(OP_EQUALVERIFY, None, 24), Instr(OP_CHECKSIG, None, 25)]
  {
    var script := KeyHashScript(program);
    assert script[3..23] == program;
    assert TokenAt(script, 0) == Instr(OP_DUP, None, 1);
    assert TokenAt(script, 1) == Instr(OP_HASH160, None, 2);
    assert TokenAt(script, 2) == Instr(OP_PUSHBYTES_20, Some(program), 23);
    assert TokenAt(script, 23) == Instr(OP_EQUALVERIFY, None, 24);
    assert TokenAt(script, 24) == Instr(OP_CHECKSIG, None, 25);
    hide TokenAt, KeyHashScript;
    assert Tokens(script, 25) == [];
    assert Tokens(script, 24) == [TokenAt(script, 24)] + Tokens(script, 25);
    assert Tokens(script, 23) == [TokenAt(script, 23)] + Tokens(script, 24);
    assert Tokens(script, 2) == [TokenAt(script, 2)] + Tokens(script, 23);
    assert Tokens(script, 1) == [TokenAt(script, 1)] + Tokens(script, 2);
    assert Tokens(script, 0) == [TokenAt(script, 0)] + Tokens(script, 1);
  }

  /** An executed instruction whose effect is known and small. */
  lemma {:induction false} KnownStep(env: Env, script: seq<byte>, st: State, t: Token, m: Machine, tail: seq<Token>)
    requires st.exec == [] && t.Instr? && !IsConditional(t.op) && !IsDisabled(t.op, env.flags) && st.ops < MAX_OPS_PER_SCRIPT
    requires t.data.Some? ==> |t.data.value| <= MAX_SCRIPT_ELEMENT_SIZE && CheckMinimalPush(t.data.value, t.op)
    requires ExecOp(env, script, st.machine, t.op, t.data, t.next) == Ok(m) && |m.stack| + |m.alt| <= MAX_STACK_SIZE
    ensures Run(env, script, st, [t] + tail) == Run(env, script, State(m, if IsCountable(t.op) then st.ops + 1 else st.ops, []), tail)
  {
    hide ExecOp, Step, CheckMinimalPush, IsDisabled;
    PlainStep(env, script, st, t);
    RunCons(env, script, st, t, tail);
  }

  lemma {:induction false} DupHash(env: Env, script: seq<byte>, sig: Element, key: Element, program: Element)
    ensures ExecOp(env, script, Machine([sig, key], [], 0), OP_DUP, None, 1) == Ok(Machine([sig, key, key], [], 0))
    ensures ExecOp(env, script, Machine([sig, key, key], [], 0), OP_HASH160, None, 2) ==
            Ok(Machine([sig, key, env.checker.dhash160(key)], [], 0))
    ensures ExecOp(env, script, Machine([sig, key, env.checker.dhash160(key)], [], 0), OP_PUSHBYTES_20, Some(program), 23) ==
            Ok(Machine([sig, key, env.checker.dhash160(key), program], [], 0))
    ensures ExecOp(env, script, Machine([sig, key, env.checker.dhash160(key), program], [], 0), OP_EQUALVERIFY, None, 24) ==
            if program == env.checker.dhash160(key) then Ok(Machine([sig, key], [], 0)) else Err(EqualVerify)
  {
    hide ExecNumeric, ExecLock, ExecControl, ExecCheckDataSig, ExecCheckSig, ExecCheckMultiSig, ExecCat, ExecSplit,
         ExecNum2Bin, ExecBin2Num, ExecBitwise, ExecPickRoll, Encode;
    assert Duplicated([sig, key], 1) == [sig, key, key];
    assert [sig, key, key][..2] == [sig, key];
    var h: Element := env.checker.dhash160(key);
    assert [sig, key] + [h] == [sig, key, h] && [sig, key, h] + [program] == [sig, key, h, program];
    assert [sig, key, h, program][..3] == [sig, key, h] && [sig, key, h][..2] == [sig, key];
  }

  lemma {:induction false} CheckKey(env: Env, script: seq<byte>, sig: Element, key: Element)
    requires env.version == WitnessV0
    ensures var e := EncodingError(env, sig, key);
            ExecOp(env, script, Machine([sig, key], [], 0), OP_CHECKSIG, None, 25) ==
            if e.Some? then Err(e.value) else Ok(Machine([BoolElement(CheckSignature(env, sig, key, script))], [], 0))
  {
    hide ExecNumeric, ExecLock, ExecControl, ExecCheckDataSig, ExecStack, ExecBytes, ExecCheckMultiSig, EncodingError, CheckSignature;
    assert [sig, key][..1] == [sig] && [sig][..0] == [];
    var answer := BoolElement(CheckSignature(env, sig, key, script));
    assert [] + [answer] == [answer];
    assert script[0..] == script;
  }

  /** The script of a key hash, run on a signature and a key: the key must hash to the program, the
      encodings must pass, and the answer is whether the signature verifies. */
  lemma {:induction false} KeyHashEval(env: Env, program: seq<byte>, sig: Element, key: Element)
    requires |program| == 20 && env.version == WitnessV0
    ensures var script := KeyHashScript(program);
            var e := EncodingError(env, sig, key);
            Eval(env, script, [sig, key]) ==
            if env.checker.dhash160(key) != program then Err(EqualVerify)
            else if e.Some? then Err(e.value)
            else var ok := CheckSignature(env, sig, key, script); Ok((ok, [BoolElement(ok)]))
  {
    hide Step, ExecOp, Tokens, EncodingError, CheckSignature;
    KeyHashTokens(program);
    var script, h := KeyHashScript(program), env.checker.dhash160(key);
    var push, verify, check := Instr(OP_PUSHBYTES_20, Some(program), 23), Instr(OP_EQUALVERIFY, None, 24), Instr(OP_CHECKSIG, None, 25);
    DupHash(env, script, sig, key, program);
    CheckKey(env, script, sig, key);
    var hash := Instr(OP_HASH160, None, 2);
    assert Tokens(script, 0) == [Instr(OP_DUP, None, 1)] + ([hash] + [push, verify, check]);
    KnownStep(env, script, Start([sig, key]), Instr(OP_DUP, None, 1), Machine([sig, key, key], [], 0), [hash] + [push, verify, check]);
    KnownStep(env, script, State(Machine([sig, key, key], [], 0), 1, []), hash, Machine([sig, key, h], [], 0), [push, verify, check]);
    var st := State(Machine([sig, key, h], [], 0), 2, []);
    RunThree(env, script, st, push, verify, check);
    PlainStep(env, script, st, push);
    PlainStep(env, script, st.(machine := Machine([sig, key, h, program], [], 0)), verify);
    PlainStep(env, script, State(Machine([sig, key], [], 0), 3, []), check);
  }

  /** A key-hash program is satisfied exactly by two short elements, a signature and a key with the
      program's hash, when the signature verifies for the key. */
  lemma {:induction false} KeyHashAcceptance(env: Env, witnesses: seq<Element>, program: seq<byte>)
    requires |program| == 20
    ensures var env' := env.(version := WitnessV0);
            VerifyWitnessProgram(env, witnesses, 0, program) == Ok(true) <==>
            |witnesses| == 2 && AllFit(witnesses) && env.checker.dhash160(witnesses[1]) == program &&
            EncodingError(env', witnesses[0], witnesses[1]).None? &&
            CheckSignature(env', witnesses[0], witnesses[1], KeyHashScript(program))
  {
    hide Eval, EncodingError, CheckSignature, KeyHashScript;
    if |witnesses| == 2 {
      assert witnesses == [witnesses[0], witnesses[1]];
      KeyHashEval(env.(version := WitnessV0), program, witnesses[0], witnesses[1]);
    }
  }
}
