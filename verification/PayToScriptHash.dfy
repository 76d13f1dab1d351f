/** What pay-to-script-hash accepts (BIP 16), and why the assertion on its stack cannot fire. */
module PayToScriptHash {
  import opened Primitives
  import opened Script
  import opened ScriptNum
  import opened Signatures
  import opened Operations
  import opened Interpreter
  import opened VerifyScripts

  // ---------------------------------------------------------------------------------------------
  // Push-only scripts.

  predicate Decoded(ts: seq<Token>) {
    forall i :: 0 <= i < |ts| && ts[i].Instr? ==> (ts[i].data.Some? <==> ts[i].op <= OP_PUSHDATA4)
  }

  lemma {:induction false} TokensDecoded(script: seq<byte>, pc: nat)
    ensures Decoded(Tokens(script, pc))
    decreases |script| - pc
  {
    if pc < |script| {
      TokensDecoded(script, TokenAt(script, pc).next);
    }
  }

  function PushedValue(t: Token): Element {
    if t.Bad? then [] else if t.data.Some? then t.data.value else Encode(t.op - (OP_1 - 1))
  }

  function PushedValues(ts: seq<Token>): (s: seq<Element>)
    ensures |s| == |ts|
  {
    seq(|ts|, i requires 0 <= i < |ts| => PushedValue(ts[i]))
  }

  /** The push is not `OP_RESERVED`, not too long, and minimal where that is asked for. */
  predicate PushAllowed(env: Env, t: Token) {
    IsPushToken(t) && t.op != OP_RESERVED &&
    (t.data.Some? ==> |t.data.value| <= MAX_SCRIPT_ELEMENT_SIZE &&
                      (env.flags.verifyMinimaldata ==> CheckMinimalPush(t.data.value, t.op)))
  }

  ghost predicate PushesAllowed(env: Env, ts: seq<Token>) {
    forall i :: 0 <= i < |ts| ==> PushAllowed(env, ts[i])
  }

  lemma {:induction false} PushStep(env: Env, script: seq<byte>, st: State, t: Token)
    requires st.exec == [] && IsPushToken(t) && (t.data.Some? <==> t.op <= OP_PUSHDATA4)
    ensures var r := Step(env, script, st, t);
            var pushed := st.(machine := Pushed(st.machine, st.machine.stack, PushedValue(t)));
            if PushAllowed(env, t) then r == Sized(pushed) else r.Err?
  {
    hide CheckMinimalPush, Encode;
  }

  /** A push-only script succeeds exactly when all its pushes are allowed and leave room, and then it
      appends the pushed values in order. */
  lemma {:induction false} PushOnlyRun(env: Env, script: seq<byte>, st: State, ts: seq<Token>)
    requires st.exec == [] && AllPushes(ts) && Decoded(ts) && |st.machine.stack| + |st.machine.alt| <= MAX_STACK_SIZE
    ensures var r := Run(env, script, st, ts);
            (r.Ok? <==> PushesAllowed(env, ts) && |st.machine.stack| + |st.machine.alt| + |ts| <= MAX_STACK_SIZE) &&
            (r.Ok? ==> r.value == st.(machine := st.machine.(stack := st.machine.stack + PushedValues(ts))))
    decreases |ts|
  {
    hide Step, PushAllowed, PushedValue;
    if ts == [] {
      assert st.machine.stack + PushedValues(ts) == st.machine.stack;
    } else {
      var t, rest := ts[0], ts[1..];
      PushStep(env, script, st, t);
      assert forall i :: 0 <= i < |rest| ==> rest[i] == ts[i + 1];
      assert PushesAllowed(env, ts) <==> PushAllowed(env, t) && PushesAllowed(env, rest) by {
        assert forall i :: 0 < i < |ts| ==> ts[i] == rest[i - 1];
      }
      assert PushedValues(ts) == [PushedValue(t)] + PushedValues(rest);
      var r := Step(env, script, st, t);
      if r.Ok? {
        PushOnlyRun(env, script, r.value, rest);
        assert st.machine.stack + [PushedValue(t)] + PushedValues(rest) == st.machine.stack + PushedValues(ts);
      }
    }
  }

  ghost predicate PushesSucceed(env: Env, script: seq<byte>) {
    |script| <= MAX_SCRIPT_SIZE && |Tokens(script, 0)| <= MAX_STACK_SIZE && PushesAllowed(env, Tokens(script, 0))
  }

  lemma {:induction false} PushOnlyEval(env: Env, script: seq<byte>)
    requires AllPushes(Tokens(script, 0))
    ensures var r := Eval(env, script, []);
            (r.Ok? <==> PushesSucceed(env, script)) && (r.Ok? ==> r.value.1 == PushedValues(Tokens(script, 0)))
  {
    hide Step, PushAllowed, PushedValues, Tokens;
    TokensDecoded(script, 0);
    PushOnlyRun(env, script, Start([]), Tokens(script, 0));
    assert [] + PushedValues(Tokens(script, 0)) == PushedValues(Tokens(script, 0));
  }

  // ---------------------------------------------------------------------------------------------
  // The output script `HASH160 <hash> EQUAL`.

  /** One executed instruction that carries no restricted data. */
  lemma {:induction false} PlainStep(env: Env, script: seq<byte>, st: State, t: Token)
    requires st.exec == [] && t.Instr? && !IsConditional(t.op) && !IsDisabled(t.op, env.flags) && st.ops < MAX_OPS_PER_SCRIPT
    requires t.data.Some? ==> |t.data.value| <= MAX_SCRIPT_ELEMENT_SIZE && CheckMinimalPush(t.data.value, t.op)
    ensures var m := ExecOp(env, script, st.machine, t.op, t.data, t.next);
            Step(env, script, st, t) ==
            if m.Err? then Err(m.error) else Sized(State(m.value, if IsCountable(t.op) then st.ops + 1 else st.ops, []))
  {
    hide ExecOp, CheckMinimalPush, IsDisabled;
  }

  function ScriptHash(pubkey: seq<byte>): seq<byte>
    requires IsPayToScriptHash(pubkey)
  {
    pubkey[2..22]
  }

  lemma {:induction false} ScriptHashTokens(pubkey: seq<byte>)
    requires IsPayToScriptHash(pubkey)
    ensures Tokens(pubkey, 0) == [Instr(OP_HASH160, None, 1), Instr(OP_PUSHBYTES_20, Some(ScriptHash(pubkey)), 22), Instr(OP_EQUAL, None, 23)]
  {
    assert TokenAt(pubkey, 0) == Instr(OP_HASH160, None, 1);
    assert TokenAt(pubkey, 1) == Instr(OP_PUSHBYTES_20, Some(ScriptHash(pubkey)), 22);
    assert TokenAt(pubkey, 22) == Instr(OP_EQUAL, None, 23);
    hide TokenAt;
    assert Tokens(pubkey, 23) == [];
    assert Tokens(pubkey, 22) == [TokenAt(pubkey, 22)] + Tokens(pubkey, 23);
    assert Tokens(pubkey, 1) == [TokenAt(pubkey, 1)] + Tokens(pubkey, 22);
    assert Tokens(pubkey, 0) == [TokenAt(pubkey, 0)] + Tokens(pubkey, 1);
  }

  lemma {:induction false} RunThree(env: Env, script: seq<byte>, st: State, a: Token, b: Token, c: Token)
    ensures var s1 := Step(env, script, st, a);
            var r := Run(env, script, st, [a, b, c]);
            if s1.Err? then r == Err(s1.error) else
              var s2 := Step(env, script, s1.value, b);
              if s2.Err? then r == Err(s2.error) else r == Step(env, script, s2.value, c)
  {
    hide Step;
    assert [a, b, c] == [a] + [b, c] && [b, c] == [b] + [c] && [c] == [c] + [];
    RunCons(env, script, st, a, [b, c]);
    var s1 := Step(env, script, st, a);
    if s1.Ok? {
      RunCons(env, script, s1.value, b, [c]);
      var s2 := Step(env, script, s1.value, b);
      if s2.Ok? {
        RunCons(env, script, s2.value, c, []);
      }
    }
  }

  /** The output script pops the top element and answers whether it hashes to the embedded bytes. It
      fails on an empty stack, and on one that leaves no room for the embedded hash. */
  lemma {:induction false} ScriptHashEval(env: Env, pubkey: seq<byte>, stack: seq<Element>)
    requires IsPayToScriptHash(pubkey) && |stack| <= MAX_STACK_SIZE
    ensures var r := Eval(env, pubkey, stack);
            (r.Ok? <==> 0 < |stack| < MAX_STACK_SIZE) &&
            (r.Ok? ==> (r.value.0 <==> env.checker.dhash160(stack[|stack| - 1]) == ScriptHash(pubkey)))
  {
    hide Step, ExecOp, Tokens;
    ScriptHashTokens(pubkey);
    var hash, push, equal := Instr(OP_HASH160, None, 1), Instr(OP_PUSHBYTES_20, Some(ScriptHash(pubkey)), 22), Instr(OP_EQUAL, None, 23);
    var st := Start(stack);
    RunThree(env, pubkey, st, hash, push, equal);
    PlainStep(env, pubkey, st, hash);
    HashPushEqual(env, pubkey, st.machine, ScriptHash(pubkey));
    if stack != [] {
      var hashed := stack[..|stack| - 1] + [env.checker.dhash160(stack[|stack| - 1])];
      var st1 := State(Machine(hashed, [], 0), 1, []);
      assert Step(env, pubkey, st, hash) == Ok(st1);
      PlainStep(env, pubkey, st1, push);
      var st2 := State(Machine(hashed + [ScriptHash(pubkey)], [], 0), 1, []);
      assert Step(env, pubkey, st1, push) == Sized(st2);
      if |stack| < MAX_STACK_SIZE {
        PlainStep(env, pubkey, st2, equal);
      }
    }
  }

  lemma {:induction false} HashPushEqual(env: Env, script: seq<byte>, m: Machine, h: Element)
    ensures m.stack == [] ==> ExecOp(env, script, m, OP_HASH160, None, 1) == Err(InvalidStackOperation)
    ensures m.stack != [] ==>
              var hashed := m.stack[..|m.stack| - 1] + [env.checker.dhash160(m.stack[|m.stack| - 1])];
              ExecOp(env, script, m, OP_HASH160, None, 1) == Ok(m.(stack := hashed)) &&
              ExecOp(env, script, m.(stack := hashed), OP_PUSHBYTES_20, Some(h), 22) == Ok(m.(stack := hashed + [h])) &&
              ExecOp(env, script, m.(stack := hashed + [h]), OP_EQUAL, None, 23) ==
              Ok(m.(stack := m.stack[..|m.stack| - 1] + [BoolElement(h == env.checker.dhash160(m.stack[|m.stack| - 1]))]))
  {
    hide ExecStack, ExecNumeric, ExecLock, ExecControl, ExecCheckDataSig, ExecCheckSig, ExecCheckMultiSig, ExecCat,
         ExecSplit, ExecNum2Bin, ExecBin2Num, ExecBitwise, Encode;
    if m.stack != [] {
      var rest, digest := m.stack[..|m.stack| - 1], env.checker.dhash160(m.stack[|m.stack| - 1]);
      assert (rest + [digest] + [h])[..|rest| + 1] == rest + [digest];
      assert (rest + [digest])[..|rest|] == rest;
    }
  }

  // ---------------------------------------------------------------------------------------------
  // Acceptance.

  /** The redeem script's second run and the checks that follow it. */
  ghost predicate Redeems(env: Env, sig: seq<byte>, pushed: seq<Element>, witnesses: seq<Element>)
    requires pushed != []
  {
    var redeem := pushed[|pushed| - 1];
    var e := Eval(env, redeem, pushed[..|pushed| - 1]);
    var w := WitnessSpend(env, witnesses, redeem, sig == PushData(redeem), WitnessMalleatedP2SH);
    e.Ok? && e.value.0 && w.Ok? &&
    (!w.value ==> (env.flags.verifyCleanstack ==> |e.value.1| == 1) && (env.flags.verifyWitness ==> witnesses == []))
  }

  /** A script-hash output is spent exactly by a push-only script that leaves room on the stack, whose
      last pushed element hashes to the embedded bytes and, run on the elements below it, gives true. */
  lemma {:induction false} ScriptHashAcceptance(env: Env, sig: seq<byte>, pubkey: seq<byte>, witnesses: seq<Element>)
    requires env.flags.verifyP2sh && IsPayToScriptHash(pubkey)
    ensures var ts := Tokens(sig, 0);
            var pushed := PushedValues(ts);
            Verified(env, sig, pubkey, witnesses).Ok? <==>
            AllPushes(ts) && PushesSucceed(env, sig) && 0 < |pushed| < MAX_STACK_SIZE &&
            env.checker.dhash160(pushed[|pushed| - 1]) == ScriptHash(pubkey) && Redeems(env, sig, pushed, witnesses)
  {
    hide Eval, Tokens, AllPushes, PushesSucceed, WitnessSpend;
    NotWitness(env, pubkey, witnesses, sig == []);
    var first := Eval(env, sig, []);
    if AllPushes(Tokens(sig, 0)) {
      PushOnlyEval(env, sig);
      if first.Ok? {
        assert |first.value.1| <= MAX_STACK_SIZE by {
          PushesWithin(env, sig);
        }
        ScriptHashEval(env, pubkey, first.value.1);
      }
    }
  }

  lemma {:induction false} PushesWithin(env: Env, sig: seq<byte>)
    requires PushesSucceed(env, sig)
    ensures |PushedValues(Tokens(sig, 0))| <= MAX_STACK_SIZE
  {
  }

  lemma {:induction false} NotWitness(env: Env, pubkey: seq<byte>, witnesses: seq<Element>, wellPlaced: bool)
    requires IsPayToScriptHash(pubkey)
    ensures WitnessSpend(env, witnesses, pubkey, wellPlaced, WitnessMalleated) == Ok(false)
  {
  }

  /** With pay-to-script-hash on, no assertion of the source can fire, whatever the scripts. */
  lemma {:induction false} AssertionsHold(env: Env, sig: seq<byte>, pubkey: seq<byte>, witnesses: seq<Element>)
    requires env.flags.verifyP2sh
    ensures Verified(env, sig, pubkey, witnesses) != Err(AssertionFailed)
  {
    hide Eval, Tokens, AllPushes, WitnessSpend;
    var first := Eval(env, sig, []);
    if IsPayToScriptHash(pubkey) && first.Ok? && first.value.1 == [] {
      ScriptHashEval(env, pubkey, []);
    }
  }
}
