/** Without the low-S flag no script stops the program. */
module NoStops {
  import opened Primitives
  import opened Script
  import opened ScriptNum
  import opened Signatures
  import opened MultiSig
  import opened Operations
  import opened Interpreter
  import opened VerifyScripts
  import opened PayToScriptHash

  ghost predicate Stops<T>(r: Result<T, ScriptError>) {
    r == Err(Unimplemented)
  }

  lemma {:induction false} MatchGoesOn(env: Env, code: seq<byte>, sigs: seq<Element>, keys: seq<Element>, s: nat, k: nat)
    requires !env.flags.verifyLowS && s <= |sigs| && k <= |keys| && |sigs| - s <= |keys| - k
    ensures !Stops(Match(env, code, sigs, keys, s, k))
    decreases |keys| - k
  {
    hide EncodingError, CheckSignature;
    if s < |sigs| {
      LowSStops(env, sigs[s], keys[k]);
      var s' := if CheckSignature(env, sigs[s], keys[k], code) then s + 1 else s;
      if |sigs| - s' <= |keys| - (k + 1) {
        MatchGoesOn(env, code, sigs, keys, s', k + 1);
      }
    }
  }

  lemma {:induction false} SignaturesGoOn(env: Env, script: seq<byte>, m: Machine, op: byte)
    requires !env.flags.verifyLowS
    ensures !Stops(ExecCheckSig(env, script, m, op)) && !Stops(ExecCheckDataSig(env, m, op))
  {
    hide EncodingError, CheckSignature, VerifySignature, StripSignature;
    forall sig: Element, key: Element
      ensures EncodingError(env, sig, key) != Some(Unimplemented)
    {
      LowSStops(env, sig, key);
    }
  }

  lemma {:induction false} MultiSigGoesOn(env: Env, script: seq<byte>, m: Machine, op: byte)
    requires !env.flags.verifyLowS
    ensures !Stops(ExecCheckMultiSig(env, script, m, op))
  {
    hide Match, StripSignatures, Meaning;
    forall code: seq<byte>, sigs: seq<Element>, keys: seq<Element> | |sigs| <= |keys|
      ensures !Stops(Match(env, code, sigs, keys, 0, 0))
    {
      MatchGoesOn(env, code, sigs, keys, 0, 0);
    }
  }

  lemma {:induction false} DataGoesOn(env: Env, m: Machine, op: byte)
    ensures !Stops(ExecStack(env, m, op)) && !Stops(ExecBytes(env, m, op)) && !Stops(ExecNumeric(env, m, op))
  {
    hide ExecBytes, ExecNumeric, Meaning, Encode, CastToBool;
    BytesGoOn(env, m, op);
    NumbersGoOn(env, m, op);
  }

  lemma {:induction false} BytesGoOn(env: Env, m: Machine, op: byte)
    ensures !Stops(ExecBytes(env, m, op))
  {
    hide Meaning, Encode, Widen, Bitwise;
  }

  lemma {:induction false} NumbersGoOn(env: Env, m: Machine, op: byte)
    ensures !Stops(ExecNumeric(env, m, op))
  {
    hide Meaning, Encode, BinaryResult, UnaryResult;
  }

  lemma {:induction false} OpGoesOn(env: Env, script: seq<byte>, m: Machine, op: byte, data: Option<Element>, next: nat)
    requires !env.flags.verifyLowS
    ensures !Stops(ExecOp(env, script, m, op, data, next))
  {
    hide ExecStack, ExecBytes, ExecNumeric, ExecCheckSig, ExecCheckDataSig, ExecCheckMultiSig, Meaning, Encode, CastToBool, Digest;
    DataGoesOn(env, m, op);
    SignaturesGoOn(env, script, m, op);
    MultiSigGoesOn(env, script, m, op);
  }

  lemma {:induction false} StepGoesOn(env: Env, script: seq<byte>, st: State, t: Token)
    requires !env.flags.verifyLowS
    ensures !Stops(Step(env, script, st, t))
  {
    hide ExecOp, CheckMinimalPush, IsDisabled, CastToBool;
    if t.Instr? {
      OpGoesOn(env, script, st.machine, t.op, t.data, t.next);
    }
  }

  lemma {:induction false} RunGoesOn(env: Env, script: seq<byte>, st: State, ts: seq<Token>)
    requires !env.flags.verifyLowS
    ensures !Stops(Run(env, script, st, ts))
    decreases |ts|
  {
    hide Step;
    if ts != [] {
      StepGoesOn(env, script, st, ts[0]);
      var next := Step(env, script, st, ts[0]);
      if next.Ok? {
        RunGoesOn(env, script, next.value, ts[1..]);
      }
    }
  }

  lemma {:induction false} EvalGoesOn(env: Env, script: seq<byte>, stack: seq<Element>)
    requires !env.flags.verifyLowS
    ensures !Stops(Eval(env, script, stack))
  {
    hide Run, Tokens;
    RunGoesOn(env, script, Start(stack), Tokens(script, 0));
  }

  lemma {:induction false} ProgramGoesOn(env: Env, witnesses: seq<Element>, version: nat, program: seq<byte>)
    requires !env.flags.verifyLowS
    ensures !Stops(VerifyWitnessProgram(env, witnesses, version, program))
  {
    hide Eval, KeyHashScript, CastToBool;
    var w := WitnessScript(env.checker, witnesses, program);
    if w.Ok? {
      EvalGoesOn(env.(version := WitnessV0), w.value.0, w.value.1);
    }
  }

  lemma {:induction false} WitnessGoesOn(env: Env, witnesses: seq<Element>, script: seq<byte>, wellPlaced: bool, misplaced: ScriptError)
    requires !env.flags.verifyLowS && misplaced != Unimplemented
    ensures !Stops(WitnessSpend(env, witnesses, script, wellPlaced, misplaced))
  {
    hide VerifyWitnessProgram, ParseWitnessProgram;
    var program := ParseWitnessProgram(script);
    if program.Some? {
      ProgramGoesOn(env, witnesses, program.value.0, program.value.1);
    }
  }

  lemma {:induction false} ScriptHashGoesOn(env: Env, sig: seq<byte>, pushed: seq<Element>, witnesses: seq<Element>)
    requires !env.flags.verifyLowS
    ensures ScriptHashSpend(env, sig, pushed, witnesses) != Err(Failed(Unimplemented))
  {
    hide Eval, Tokens, AllPushes, WitnessSpend;
    if pushed != [] {
      var redeem := pushed[|pushed| - 1];
      EvalGoesOn(env, redeem, pushed[..|pushed| - 1]);
      WitnessGoesOn(env, witnesses, redeem, sig == PushData(redeem), WitnessMalleatedP2SH);
    }
  }

  lemma {:induction false} VerifyGoesOn(env: Env, sig: seq<byte>, pubkey: seq<byte>, witnesses: seq<Element>)
    requires !env.flags.verifyLowS
    ensures Verified(env, sig, pubkey, witnesses) != Err(Failed(Unimplemented))
  {
    hide Eval, Tokens, AllPushes, WitnessSpend, ScriptHashSpend, IsPayToScriptHash;
    var first := Eval(env, sig, []);
    EvalGoesOn(env, sig, []);
    WitnessGoesOn(env, witnesses, pubkey, sig == [], WitnessMalleated);
    if first.Ok? {
      EvalGoesOn(env, pubkey, first.value.1);
      ScriptHashGoesOn(env, sig, first.value.1, witnesses);
    }
  }

  /** Under script-hash rules and without the low-S flag, `verify_script` always returns: no assertion
      fires and the missing test is not reached, whatever the scripts. */
  lemma {:induction false} VerifyReturns(env: Env, sig: seq<byte>, pubkey: seq<byte>, witnesses: seq<Element>)
    requires env.flags.verifyP2sh && !env.flags.verifyLowS
    ensures Verified(env, sig, pubkey, witnesses) != Err(AssertionFailed)
    ensures Verified(env, sig, pubkey, witnesses) != Err(Failed(Unimplemented))
  {
    hide Verified;
    AssertionsHold(env, sig, pubkey, witnesses);
    VerifyGoesOn(env, sig, pubkey, witnesses);
  }
}
