/** The matching loop of `OP_CHECKMULTISIG` (script/src/interpreter.rs). */
module MultiSig {
  import opened Primitives
  import opened Script
  import opened Signatures

  /** What the loop computes from signature `s` and key `k` on. */
  function Match(env: Env, code: seq<byte>, sigs: seq<seq<byte>>, keys: seq<seq<byte>>, s: nat, k: nat): Result<bool, ScriptError>
    requires s <= |sigs| && k <= |keys| && |sigs| - s <= |keys| - k
    decreases |keys| - k
  {
    if s == |sigs| then Ok(true)
    else
      var e := EncodingError(env, sigs[s], keys[k]);
      if e.Some? then Err(e.value)
      else
        var s' := if CheckSignature(env, sigs[s], keys[k], code) then s + 1 else s;
        if |sigs| - s' > |keys| - (k + 1) then Ok(false) else Match(env, code, sigs, keys, s', k + 1)
  }

  /** The loop; it never looks past the last key. */
  method MatchSignatures(env: Env, code: seq<byte>, sigs: seq<seq<byte>>, keys: seq<seq<byte>>) returns (r: Result<bool, ScriptError>)
    requires |sigs| <= |keys|
    ensures r == Match(env, code, sigs, keys, 0, 0)
  {
    var success, k, s := true, 0, 0;
    while s < |sigs| && success
      invariant 0 <= s <= |sigs| && 0 <= k <= |keys|
      invariant success <==> |sigs| - s <= |keys| - k
      invariant Match(env, code, sigs, keys, 0, 0) == if success then Match(env, code, sigs, keys, s, k) else Ok(false)
      decreases |keys| - k
    {
      var key, sig := keys[k], sigs[s];
      var e := SignatureEncodingError(env, sig);
      if e.Some? {
        return Err(e.value);
      }
      e := PubkeyEncodingError(env, key);
      if e.Some? {
        return Err(e.value);
      }
      if CheckSignature(env, sig, key, code) {
        s := s + 1;
      }
      k := k + 1;
      success := |sigs| - s <= |keys| - k;
    }
    r := Ok(success);
  }

  ghost predicate Increasing(a: seq<nat>) {
    forall i, j :: 0 <= i < j < |a| ==> a[i] < a[j]
  }

  /** `a` gives every signature from `s` on its own key among those from `k` on, in order, and every
      pair verifies. */
  ghost predicate Assignment(env: Env, code: seq<byte>, sigs: seq<seq<byte>>, keys: seq<seq<byte>>, s: nat, k: nat, a: seq<nat>)
    requires s <= |sigs|
  {
    |a| == |sigs| - s && Increasing(a) &&
    forall i :: 0 <= i < |a| ==> k <= a[i] < |keys| && CheckSignature(env, sigs[s + i], keys[a[i]], code)
  }

  ghost predicate Assignable(env: Env, code: seq<byte>, sigs: seq<seq<byte>>, keys: seq<seq<byte>>, s: nat, k: nat)
    requires s <= |sigs|
  {
    exists a :: Assignment(env, code, sigs, keys, s, k, a)
  }

  ghost predicate EncodingsPass(env: Env, sigs: seq<seq<byte>>, keys: seq<seq<byte>>) {
    forall i, j :: 0 <= i < |sigs| && 0 <= j < |keys| ==> EncodingError(env, sigs[i], keys[j]).None?
  }

  /** Greedy matching is complete: whenever no encoding is rejected on the way, the loop succeeds
      exactly when an increasing assignment of signatures to keys exists. */
  lemma {:induction false} GreedyIsComplete(env: Env, code: seq<byte>, sigs: seq<seq<byte>>, keys: seq<seq<byte>>, s: nat, k: nat)
    requires s <= |sigs| && k <= |keys| && |sigs| - s <= |keys| - k
    ensures var r := Match(env, code, sigs, keys, s, k);
            (r.Ok? ==> (r.value <==> Assignable(env, code, sigs, keys, s, k))) && (EncodingsPass(env, sigs, keys) ==> r.Ok?)
    decreases |keys| - k
  {
    if s == |sigs| {
      assert Assignment(env, code, sigs, keys, s, k, []);
    } else if EncodingError(env, sigs[s], keys[k]).None? {
      var ok := CheckSignature(env, sigs[s], keys[k], code);
      var s' := if ok then s + 1 else s;
      if ok {
        TakeKey(env, code, sigs, keys, s, k);
      } else {
        SkipKey(env, code, sigs, keys, s, k);
      }
      if |sigs| - s' > |keys| - (k + 1) {
        NeedsRoom(env, code, sigs, keys, s', k + 1);
      } else {
        GreedyIsComplete(env, code, sigs, keys, s', k + 1);
      }
    }
  }

  /** A key that verifies the next signature can be given to it. */
  lemma {:induction false} TakeKey(env: Env, code: seq<byte>, sigs: seq<seq<byte>>, keys: seq<seq<byte>>, s: nat, k: nat)
    requires s < |sigs| && k < |keys| && CheckSignature(env, sigs[s], keys[k], code)
    ensures Assignable(env, code, sigs, keys, s, k) <==> Assignable(env, code, sigs, keys, s + 1, k + 1)
  {
    var s', k' := s + 1, k + 1;
    if a :| Assignment(env, code, sigs, keys, s, k, a) {
      var b := a[1..];
      forall i | 0 <= i < |b|
        ensures k + 1 <= b[i] < |keys| && CheckSignature(env, sigs[s + 1 + i], keys[b[i]], code)
      {
        assert b[i] == a[i + 1] && a[0] < a[i + 1];
        assert s + 1 + i == s + (i + 1);
      }
      assert Assignment(env, code, sigs, keys, s + 1, k + 1, b);
    } else if b :| Assignment(env, code, sigs, keys, s', k', b) {
      var a := [k] + b;
      forall i | 0 <= i < |a|
        ensures k <= a[i] < |keys| && CheckSignature(env, sigs[s + i], keys[a[i]], code)
      {
        if i > 0 {
          assert s + i == s + 1 + (i - 1);
        }
      }
      assert Assignment(env, code, sigs, keys, s, k, a);
    }
  }

  lemma {:induction false} SkipKey(env: Env, code: seq<byte>, sigs: seq<seq<byte>>, keys: seq<seq<byte>>, s: nat, k: nat)
    requires s < |sigs| && k < |keys| && !CheckSignature(env, sigs[s], keys[k], code)
    ensures Assignable(env, code, sigs, keys, s, k) <==> Assignable(env, code, sigs, keys, s, k + 1)
  {
    var k' := k + 1;
    if a :| Assignment(env, code, sigs, keys, s, k, a) {
      assert CheckSignature(env, sigs[s + 0], keys[a[0]], code);
      assert forall i :: 0 < i < |a| ==> a[0] < a[i];
      assert Assignment(env, code, sigs, keys, s, k + 1, a);
    } else if b :| Assignment(env, code, sigs, keys, s, k', b) {
      assert Assignment(env, code, sigs, keys, s, k, b);
    }
  }

  lemma {:induction false} NeedsRoom(env: Env, code: seq<byte>, sigs: seq<seq<byte>>, keys: seq<seq<byte>>, s: nat, k: nat)
    requires s <= |sigs| && k <= |keys|
    ensures Assignable(env, code, sigs, keys, s, k) ==> |sigs| - s <= |keys| - k
  {
    if a :| Assignment(env, code, sigs, keys, s, k, a) {
      if a != [] {
        SpreadOut(a, k, |a| - 1);
      }
    }
  }

  lemma {:induction false} SpreadOut(a: seq<nat>, k: nat, i: nat)
    requires Increasing(a) && i < |a| && k <= a[0]
    ensures a[i] >= k + i
  {
    if i > 0 {
      SpreadOut(a, k, i - 1);
    }
  }
}
