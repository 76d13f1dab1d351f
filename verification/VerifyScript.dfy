/** Spending an output: signature script, output script, pay-to-script-hash and witness programs
    (script/src/interpreter.rs, `verify_script` and `verify_witness_program`). */
module VerifyScripts {
  import opened Primitives
  import opened Script
  import opened Signatures
  import opened Operations
  import opened Interpreter

  /** A script's own error, or an assertion of the source that would stop the program. */
  datatype VerifyError = Failed(error: ScriptError) | AssertionFailed

  function Lift<T>(r: Result<T, ScriptError>): Result<T, VerifyError> {
    match r
    case Ok(v) => Ok(v)
    case Err(e) => Err(Failed(e))
  }

  // ---------------------------------------------------------------------------------------------
  // Witness programs.

  function KeyHashScript(program: seq<byte>): seq<byte> {
    [OP_DUP, OP_HASH160] + PushData(program) + [OP_EQUALVERIFY, OP_CHECKSIG]
  }

  /** The script and the initial stack of a version 0 program. */
  function WitnessScript(checker: Checker, witnesses: seq<Element>, program: seq<byte>): Result<(seq<byte>, seq<Element>), ScriptError> {
    if |program| == 32 then
      if witnesses == [] then Err(WitnessProgramWitnessEmpty)
      else if checker.sha256(witnesses[|witnesses| - 1]) != program then Err(WitnessProgramMismatch)
      else Ok((witnesses[|witnesses| - 1], witnesses[..|witnesses| - 1]))
    else if |program| == 20 then
      if |witnesses| != 2 then Err(WitnessProgramMismatch) else Ok((KeyHashScript(program), witnesses))
    else Err(WitnessProgramWrongLength)
  }

  function VerifyWitnessProgram(env: Env, witnesses: seq<Element>, version: nat, program: seq<byte>): Result<bool, ScriptError> {
    if version != 0 then
      if env.flags.verifyDiscourageUpgradableWitnessProgram then Err(DiscourageUpgradableWitnessProgram) else Ok(true)
    else
      var w :- WitnessScript(env.checker, witnesses, program);
      if exists i :: 0 <= i < |w.1| && |w.1[i]| > MAX_SCRIPT_ELEMENT_SIZE then Err(PushSize)
      else
        var e :- Eval(env.(version := WitnessV0), w.0, w.1);
        if !e.0 then Ok(false)
        else if |e.1| != 1 then Err(EvalFalse)
        else Ok(CastToBool(e.1[0]))
  }

  /** Runs the witness program a script spells, if it spells one; `Ok` says whether it did. */
  function WitnessSpend(env: Env, witnesses: seq<Element>, script: seq<byte>, wellPlaced: bool, misplaced: ScriptError): Result<bool, ScriptError> {
    var program := ParseWitnessProgram(script);
    if !env.flags.verifyWitness || program.None? then Ok(false)
    else if !wellPlaced then Err(misplaced)
    else
      var ok :- VerifyWitnessProgram(env, witnesses, program.value.0, program.value.1);
      if ok then Ok(true) else Err(EvalFalse)
  }

  // ---------------------------------------------------------------------------------------------
  // The whole check.

  /** The second pass: the last pushed element, as a script, on the rest of the pushed stack. */
  function ScriptHashSpend(env: Env, sig: seq<byte>, pushed: seq<Element>, witnesses: seq<Element>): Result<(bool, seq<Element>), VerifyError> {
    if !AllPushes(Tokens(sig, 0)) then Err(Failed(SignaturePushOnly))
    else if pushed == [] then Err(AssertionFailed)
    else
      var redeem := pushed[|pushed| - 1];
      var e :- Lift(Eval(env, redeem, pushed[..|pushed| - 1]));
      if !e.0 then Err(Failed(EvalFalse))
      else
        var had :- Lift(WitnessSpend(env, witnesses, redeem, sig == PushData(redeem), WitnessMalleatedP2SH));
        Ok((had, e.1))
  }

  function FinalChecks(flags: VerificationFlags, hadWitness: bool, stack: seq<Element>, witnesses: seq<Element>): Result<(), VerifyError> {
    if flags.verifyCleanstack && !hadWitness && !flags.verifyP2sh then Err(AssertionFailed)
    else if flags.verifyCleanstack && !hadWitness && |stack| != 1 then Err(Failed(Cleanstack))
    else if flags.verifyWitness && !flags.verifyP2sh then Err(AssertionFailed)
    else if flags.verifyWitness && !hadWitness && witnesses != [] then Err(Failed(WitnessUnexpected))
    else Ok(())
  }

  function Verified(env: Env, sig: seq<byte>, pubkey: seq<byte>, witnesses: seq<Element>): Result<(), VerifyError> {
    if env.flags.verifySigpushonly && !AllPushes(Tokens(sig, 0)) then Err(Failed(SignaturePushOnly))
    else
      var first :- Lift(Eval(env, sig, []));
      var second :- Lift(Eval(env, pubkey, first.1));
      if !second.0 then Err(Failed(EvalFalse))
      else
        var had :- Lift(WitnessSpend(env, witnesses, pubkey, sig == [], WitnessMalleated));
        if env.flags.verifyP2sh && IsPayToScriptHash(pubkey) then
          var third :- ScriptHashSpend(env, sig, first.1, witnesses);
          FinalChecks(env.flags, had || third.0, third.1, witnesses)
        else FinalChecks(env.flags, had, second.1, witnesses)
  }

  /** `verify_script`. */
  method VerifyScript(env: Env, scriptSig: seq<byte>, scriptPubkey: seq<byte>, witnesses: seq<Element>) returns (r: Result<(), VerifyError>)
    ensures r == Verified(env, scriptSig, scriptPubkey, witnesses)
  {
    hide Eval, Tokens, AllPushes, WitnessSpend;
    var flags := env.flags;
    var pushOnly := IsPushOnly(scriptSig);
    if flags.verifySigpushonly && !pushOnly {
      return Err(Failed(SignaturePushOnly));
    }
    var stack, stackCopy: seq<Element> := [], [];
    var hadWitness := false;
    var evaluated := EvalScript(env, scriptSig, stack);
    if evaluated.Err? {
      return Err(Failed(evaluated.error));
    }
    stack := evaluated.value.1;
    if flags.verifyP2sh {
      stackCopy := stack;
    }
    evaluated := EvalScript(env, scriptPubkey, stack);
    if evaluated.Err? {
      return Err(Failed(evaluated.error));
    }
    stack := evaluated.value.1;
    if !evaluated.value.0 {
      return Err(Failed(EvalFalse));
    }
    var verifyCleanstack := flags.verifyCleanstack;
    var spent := WitnessSpend(env, witnesses, scriptPubkey, scriptSig == [], WitnessMalleated);
    if spent.Err? {
      return Err(Failed(spent.error));
    }
    if spent.value {
      hadWitness, verifyCleanstack := true, false;
    }
    if flags.verifyP2sh && IsPayToScriptHash(scriptPubkey) {
      if !pushOnly {
        return Err(Failed(SignaturePushOnly));
      }
      stack, stackCopy := stackCopy, stack;
      if stack == [] {
        return Err(AssertionFailed);
      }
      var pubkey2 := stack[|stack| - 1];
      stack := stack[..|stack| - 1];
      evaluated := EvalScript(env, pubkey2, stack);
      if evaluated.Err? {
        return Err(Failed(evaluated.error));
      }
      stack := evaluated.value.1;
      if !evaluated.value.0 {
        return Err(Failed(EvalFalse));
      }
      spent := WitnessSpend(env, witnesses, pubkey2, scriptSig == PushData(pubkey2), WitnessMalleatedP2SH);
      if spent.Err? {
        return Err(Failed(spent.error));
      }
      if spent.value {
        hadWitness, verifyCleanstack := true, false;
      }
    }
    if verifyCleanstack {
      if !flags.verifyP2sh {
        return Err(AssertionFailed);
      }
      if |stack| != 1 {
        return Err(Failed(Cleanstack));
      }
    }
    if flags.verifyWitness {
      if !flags.verifyP2sh {
        return Err(AssertionFailed);
      }
      if !hadWitness && witnesses != [] {
        return Err(Failed(WitnessUnexpected));
      }
    }
    r := Ok(());
  }
}
