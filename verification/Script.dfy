/** Scripts as byte strings, their instructions and templates (script/src/script.rs, script/src/opcode.rs). */
module Script {
  import opened Primitives
  import opened LittleEndian

  const MAX_SCRIPT_ELEMENT_SIZE: nat := 520
  const MAX_OPS_PER_SCRIPT: nat := 201
  const MAX_PUBKEYS_PER_MULTISIG: nat := 20
  const MAX_SCRIPT_SIZE: nat := 10000
  const MAX_STACK_SIZE: nat := 1000

  datatype ScriptError =
    | EvalFalse | ReturnOpcode
    | ScriptSize | PushSize | OpCount | StackSize | NumberOverflow | NumberNotMinimallyEncoded
    | SigCount | PubkeyCount | InvalidOperandSize
    | Verify | EqualVerify | CheckSigVerify | CheckDataSigVerify | NumEqualVerify
    | BadOpcode | DisabledOpcode(opcode: byte)
    | InvalidStackOperation | InvalidAltstackOperation | UnbalancedConditional
    | InvalidSplitRange | DivisionByZero | ImpossibleEncoding
    | NegativeLocktime | UnsatisfiedLocktime
    | SignatureHashtype | SignatureDer | SignatureIllegalForkId | SignatureMustUseForkId
    | Minimaldata | SignaturePushOnly | SignatureHighS | SignatureNullDummy | PubkeyType | Cleanstack
    | DiscourageUpgradableNops | DiscourageUpgradableWitnessProgram
    | WitnessProgramWrongLength | WitnessProgramWitnessEmpty | WitnessProgramMismatch
    | WitnessMalleated | WitnessMalleatedP2SH | WitnessUnexpected
    | Unimplemented // the source stops the program here

  // Opcodes the control flow and the templates name; all values up to the last one are opcodes.
  const OP_PUSHBYTES_20: byte := 0x14
  const OP_PUSHBYTES_75: byte := 0x4b
  const OP_PUSHDATA1: byte := 0x4c
  const OP_PUSHDATA2: byte := 0x4d
  const OP_PUSHDATA4: byte := 0x4e
  const OP_1NEGATE: byte := 0x4f
  const OP_RESERVED: byte := 0x50
  const OP_1: byte := 0x51
  const OP_16: byte := 0x60
  const OP_IF: byte := 0x63
  const OP_NOTIF: byte := 0x64
  const OP_VERIF: byte := 0x65
  const OP_VERNOTIF: byte := 0x66
  const OP_ELSE: byte := 0x67
  const OP_ENDIF: byte := 0x68
  const OP_DUP: byte := 0x76
  const OP_EQUAL: byte := 0x87
  const OP_EQUALVERIFY: byte := 0x88
  const OP_HASH160: byte := 0xa9
  const OP_CHECKSIG: byte := 0xac
  const OP_CHECKDATASIGVERIFY: byte := 0xbb

  // ---------------------------------------------------------------------------------------------
  // Instructions.

  datatype Instruction = Instruction(opcode: byte, step: nat, data: Option<seq<byte>>)

  function Take(script: seq<byte>, offset: nat, len: nat): (r: Result<seq<byte>, ScriptError>)
    ensures r.Ok? <==> offset + len <= |script|
    ensures r.Ok? ==> |r.value| == len
  {
    if offset + len > |script| then Err(BadOpcode) else Ok(script[offset..offset + len])
  }

  /** The instruction at `position`: it lies inside the script, and only the push opcodes carry data. */
  function GetInstruction(script: seq<byte>, position: nat): (r: Result<Instruction, ScriptError>)
    requires position < |script|
    ensures r.Err? ==> r.error == BadOpcode
    ensures r.Ok? ==> r.value.opcode == script[position] <= OP_CHECKDATASIGVERIFY
    ensures r.Ok? ==> 1 <= r.value.step && position + r.value.step <= |script|
    ensures r.Ok? ==> (r.value.data.Some? <==> r.value.opcode <= OP_PUSHDATA4)
    ensures r.Ok? && r.value.data.Some? ==> |r.value.data.value| < r.value.step
  {
    var op := script[position];
    if op > OP_CHECKDATASIGVERIFY then Err(BadOpcode)
    else if OP_PUSHDATA1 <= op <= OP_PUSHDATA4 then
      var len := if op == OP_PUSHDATA1 then 1 else if op == OP_PUSHDATA2 then 2 else 4;
      var slice :- Take(script, position + 1, len);
      var n := Value(slice);
      var bytes :- Take(script, position + 1 + len, n);
      Ok(Instruction(op, len + n + 1, Some(bytes)))
    else if op <= OP_PUSHBYTES_75 then
      var bytes :- Take(script, position + 1, op);
      Ok(Instruction(op, op + 1, Some(bytes)))
    else Ok(Instruction(op, 1, None))
  }

  /** What the interpreter meets at a position. A malformed instruction is a single byte: fatal when
      executed, stepped over when not. `next` is the position after the token. */
  datatype Token =
    | Instr(op: byte, data: Option<seq<byte>>, next: nat)
    | Bad(next: nat)

  function TokenAt(script: seq<byte>, pc: nat): (t: Token)
    requires pc < |script|
    ensures pc < t.next <= |script|
  {
    var r := GetInstruction(script, pc);
    if r.Err? then Bad(pc + 1) else Instr(r.value.opcode, r.value.data, pc + r.value.step)
  }

  /** The script from `pc` on as a list of tokens. */
  function Tokens(script: seq<byte>, pc: nat): seq<Token>
    decreases |script| - pc
  {
    if pc >= |script| then [] else
      var t := TokenAt(script, pc);
      [t] + Tokens(script, t.next)
  }

  // ---------------------------------------------------------------------------------------------
  // Templates.

  predicate IsPushToken(t: Token) {
    t.Instr? && t.op <= OP_16
  }

  predicate AllPushes(ts: seq<Token>) {
    forall i :: 0 <= i < |ts| ==> IsPushToken(ts[i])
  }

  /** Only push opcodes, `OP_RESERVED` included. */
  method IsPushOnly(script: seq<byte>) returns (r: bool)
    ensures r <==> AllPushes(Tokens(script, 0))
  {
    var pc := 0;
    while pc < |script|
      invariant 0 <= pc <= |script|
      invariant AllPushes(Tokens(script, 0)) <==> AllPushes(Tokens(script, pc))
      decreases |script| - pc
    {
      var i := GetInstruction(script, pc);
      AllPushesCons(TokenAt(script, pc), Tokens(script, TokenAt(script, pc).next));
      if i.Err? || i.value.opcode > OP_16 {
        return false;
      }
      pc := pc + i.value.step;
    }
    r := true;
  }

  lemma {:induction false} AllPushesCons(t: Token, ts: seq<Token>)
    ensures AllPushes([t] + ts) <==> IsPushToken(t) && AllPushes(ts)
  {
    var all := [t] + ts;
    assert all[0] == t;
    assert forall i :: 0 <= i < |ts| ==> all[i + 1] == ts[i];
    if AllPushes(all) {
      assert IsPushToken(all[0]);
      forall i | 0 <= i < |ts|
        ensures IsPushToken(ts[i])
      {
        assert IsPushToken(all[i + 1]);
      }
    }
  }

  predicate IsPayToScriptHash(script: seq<byte>) {
    |script| == 23 && script[0] == OP_HASH160 && script[1] == OP_PUSHBYTES_20 && script[22] == OP_EQUAL
  }

  /** A small version number and a single push make a witness program. */
  function ParseWitnessProgram(script: seq<byte>): (r: Option<(nat, seq<byte>)>)
    ensures r.Some? ==> r.value.0 <= 16 && 2 <= |r.value.1| <= 40
  {
    if |script| < 4 || |script| > 42 || script[1] != |script| - 2 then None
    else if script[0] == 0 then Some((0, script[2..]))
    else if OP_1 <= script[0] <= OP_16 then Some((script[0] - OP_1 + 1, script[2..]))
    else None
  }

  /** Witness programs are exactly a version opcode and one direct push of 2 to 40 bytes. */
  lemma {:induction false} WitnessProgramForm(script: seq<byte>, version: nat, program: seq<byte>)
    ensures ParseWitnessProgram(script) == Some((version, program)) <==>
            version <= 16 && 2 <= |program| <= 40 && script == [if version == 0 then 0 else OP_1 + version - 1, |program|] + program
  {
    if |script| >= 2 {
      assert script == [script[0], script[1]] + script[2..];
    }
  }

  /** `Builder::push_data`, for data of less than 2^32 bytes. */
  function PushData(data: seq<byte>): seq<byte> {
    if |data| < OP_PUSHDATA1 then [|data|] + data
    else if |data| < 0x100 then [OP_PUSHDATA1, |data|] + data
    else if |data| < 0x1_0000 then [OP_PUSHDATA2] + Bytes(|data|, 2) + data
    else [OP_PUSHDATA4] + Bytes(|data|, 4) + data
  }

  /** Decoding at the start of a pushed string gives it back, wherever it stands in a script. */
  lemma {:induction false} PushRoundTrip(before: seq<byte>, data: seq<byte>, after: seq<byte>)
    requires |data| < 0x1_0000_0000
    ensures var r := GetInstruction(before + PushData(data) + after, |before|);
            r.Ok? && r.value.step == |PushData(data)| && r.value.data == Some(data)
  {
    if |data| < 76 {
      hide Bytes, Value;
      Layout(before, |data|, [], data, after);
      assert PushData(data) == [|data|] + [] + data;
    } else {
      LongPush(before, data, after);
    }
  }

  lemma {:induction false} LongPush(before: seq<byte>, data: seq<byte>, after: seq<byte>)
    requires 76 <= |data| < 0x1_0000_0000
    ensures var r := GetInstruction(before + PushData(data) + after, |before|);
            r.Ok? && r.value.step == |PushData(data)| && r.value.data == Some(data)
  {
    var len := if |data| < 0x100 then 1 else if |data| < 0x1_0000 then 2 else 4;
    var op := if len == 1 then OP_PUSHDATA1 else if len == 2 then OP_PUSHDATA2 else OP_PUSHDATA4;
    LongPushForm(data, op, len);
    hide Bytes, Pow256, Value, PushData;
    Layout(before, op, Bytes(|data|, len), data, after);
  }

  lemma {:induction false} LongPushForm(data: seq<byte>, op: byte, len: nat)
    requires 76 <= |data| < 0x1_0000_0000
    requires len == (if |data| < 0x100 then 1 else if |data| < 0x1_0000 then 2 else 4)
    requires op == (if len == 1 then OP_PUSHDATA1 else if len == 2 then OP_PUSHDATA2 else OP_PUSHDATA4)
    ensures PushData(data) == [op] + Bytes(|data|, len) + data && Value(Bytes(|data|, len)) == |data|
  {
    assert Pow256(1) == 0x100 && Pow256(2) == 0x1_0000 && Pow256(4) == 0x1_0000_0000;
    assert Bytes(|data|, 1) == [|data| % 256];
    ValueOfBytes(|data|, len);
  }

  lemma {:induction false} Layout(before: seq<byte>, op: byte, length: seq<byte>, data: seq<byte>, after: seq<byte>)
    ensures var script, at := before + ([op] + length + data) + after, |before|;
            script[at] == op && script[at + 1..at + 1 + |length|] == length &&
            script[at + 1 + |length|..at + 1 + |length| + |data|] == data
  {
  }

  /** Removes occurrences of `data`, except one at the very end. */
  function FindAndDelete(script: seq<byte>, data: seq<byte>): seq<byte> {
    if |data| > |script| || data == [] then script else DeleteFrom(script, data, 0)
  }

  function DeleteFrom(script: seq<byte>, data: seq<byte>, current: nat): seq<byte>
    requires 0 < |data| <= |script| && current <= |script|
    decreases |script| - current
  {
    if current >= |script| - |data| then script[current..]
    else if script[current..current + |data|] != data then [script[current]] + DeleteFrom(script, data, current + 1)
    else DeleteFrom(script, data, current + |data|)
  }
}
