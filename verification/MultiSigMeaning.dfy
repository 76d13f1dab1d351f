/** `OP_CHECKMULTISIG` from the stack up: `dummy sig_1 .. sig_m m key_1 .. key_n n CHECKMULTISIG`. */
module MultiSigMeaning {
  import opened Primitives
  import opened Script
  import opened ScriptNum
  import opened Signatures
  import opened MultiSig
  import opened Operations
  import opened OpcodeMeaning

  lemma {:induction false} PopListed(rest: seq<Element>, listed: seq<Element>)
    ensures PopMany(rest + listed, |listed|) == Ok((Reversed(listed), rest))
  {
    var popped := PopMany(rest + listed, |listed|).value;
    assert popped.0 == Reversed(listed) && popped.1 == rest;
  }

  /** An assignment of the lists read backwards is an assignment of the lists. */
  lemma {:induction false} AssignBackwards(env: Env, code: seq<byte>, sigs: seq<Element>, keys: seq<Element>, a: seq<nat>)
    requires Assignment(env, code, Reversed(sigs), Reversed(keys), 0, 0, a)
    ensures Assignable(env, code, sigs, keys, 0, 0)
  {
    var n := |keys|;
    var b: seq<nat> := seq(|a|, i requires 0 <= i < |a| && 0 <= a[|a| - 1 - i] < n => n - 1 - a[|a| - 1 - i]);
    forall i | 0 <= i < |b|
      ensures 0 <= b[i] < n && CheckSignature(env, sigs[0 + i], keys[b[i]], code)
    {
      var k := |a| - 1 - i;
      assert CheckSignature(env, Reversed(sigs)[0 + k], Reversed(keys)[a[k]], code);
    }
    assert Increasing(b);
    assert Assignment(env, code, sigs, keys, 0, 0, b);
  }

  lemma {:induction false} AssignableBackwards(env: Env, code: seq<byte>, sigs: seq<Element>, keys: seq<Element>)
    ensures Assignable(env, code, Reversed(sigs), Reversed(keys), 0, 0) <==> Assignable(env, code, sigs, keys, 0, 0)
  {
    var revSigs, revKeys := Reversed(sigs), Reversed(keys);
    if Assignable(env, code, revSigs, revKeys, 0, 0) {
      var a :| Assignment(env, code, revSigs, revKeys, 0, 0, a);
      AssignBackwards(env, code, sigs, keys, a);
    }
    if Assignable(env, code, sigs, keys, 0, 0) {
      var a :| Assignment(env, code, sigs, keys, 0, 0, a);
      assert Reversed(revSigs) == sigs && Reversed(revKeys) == keys;
      AssignBackwards(env, code, revSigs, revKeys, a);
    }
  }

  lemma {:induction false} EncodingsBackwards(env: Env, sigs: seq<Element>, keys: seq<Element>)
    requires EncodingsPass(env, sigs, keys)
    ensures EncodingsPass(env, Reversed(sigs), Reversed(keys))
  {
  }

  /** With encodings that pass and a permitted dummy, the answer is whether the signatures, in their
      written order, can be given increasing keys that verify them. */
  lemma {:induction false} CheckMultiSigMeaning(
    env: Env, script: seq<byte>, m: Machine, rest: seq<Element>, dummy: Element, sigs: seq<Element>, keys: seq<Element>)
    requires m.stack == rest + [dummy] + sigs + [Encode(|sigs|)] + keys + [Encode(|keys|)]
    requires |sigs| <= |keys| <= MAX_PUBKEYS_PER_MULTISIG && EncodingsPass(env, sigs, keys)
    requires env.flags.verifyNulldummy ==> dummy == []
    ensures var code := StripSignatures(env, Subscript(script, m.begin), Reversed(sigs));
            ExecCheckMultiSig(env, script, m, 0xae) == Ok(m.(stack := rest + [BoolElement(Assignable(env, code, sigs, keys, 0, 0))]))
  {
    hide Encode, Match, StripSignatures, EncodingsPass, Assignable, PopNum, PopMany;
    var code := StripSignatures(env, Subscript(script, m.begin), Reversed(sigs));
    OperandRange(|keys|);
    OperandRange(|sigs|);
    PopOperand(env, rest + [dummy] + sigs + [Encode(|sigs|)] + keys, |keys|);
    PopListed(rest + [dummy] + sigs + [Encode(|sigs|)], keys);
    PopOperand(env, rest + [dummy] + sigs, |sigs|);
    PopListed(rest + [dummy], sigs);
    EncodingsBackwards(env, sigs, keys);
    AssignableBackwards(env, code, sigs, keys);
    GreedyIsComplete(env, code, Reversed(sigs), Reversed(keys), 0, 0);
    assert (rest + [dummy])[..|rest|] == rest;
  }
}
