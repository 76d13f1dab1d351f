/** What each opcode does when it is executed (script/src/interpreter.rs, the arms of `eval_script`);
    the conditionals are in the interpreter. */
module Operations {
  import opened Primitives
  import opened Script
  import opened LittleEndian
  import opened ScriptNum
  import opened ScriptStack
  import opened Signatures
  import opened MultiSig

  type Element = seq<byte>

  /** The two stacks and the start of the code that signatures commit to. */
  datatype Machine = Machine(stack: seq<Element>, alt: seq<Element>, begin: nat)

  const SEQUENCE_LOCKTIME_DISABLE_FLAG: nat := 0x8000_0000

  // ---------------------------------------------------------------------------------------------
  // Truth values and pushes.

  predicate CastToBool(data: Element) {
    data != [] && ((exists i :: 0 <= i < |data| - 1 && data[i] != 0) || !(Last(data) == 0 || Last(data) == 0x80))
  }

  function BoolElement(b: bool): Element {
    if b then [1] else []
  }

  predicate CheckMinimalPush(data: Element, op: byte) {
    if data == [] then op == 0
    else if |data| == 1 && 1 <= data[0] <= 16 then op == OP_1 + (data[0] - 1)
    else if |data| == 1 && data[0] == 0x81 then op == OP_1NEGATE
    else if |data| <= 75 then op == |data|
    else if |data| <= 255 then op == OP_PUSHDATA1
    else if |data| <= 65535 then op == OP_PUSHDATA2
    else true
  }

  /** Disabled whether executed or not, unless the flag of its replacement is on. */
  predicate IsDisabled(op: byte, flags: VerificationFlags) {
    (op == 0x7e && !flags.verifyConcat) ||
    (op == 0x7f && !flags.verifySplit) ||
    (op == 0x84 && !flags.verifyAnd) ||
    (op == 0x85 && !flags.verifyOr) ||
    (op == 0x86 && !flags.verifyXor) ||
    (op == 0x96 && !flags.verifyDiv) ||
    (op == 0x97 && !flags.verifyMod) ||
    (op == 0x81 && !flags.verifyBin2num) ||
    (op == 0x80 && !flags.verifyNum2bin) ||
    op == 0x83 || op == 0x8d || op == 0x8e || op == 0x95 || op == 0x98 || op == 0x99
  }

  predicate IsCountable(op: byte) {
    op > OP_16
  }

  // ---------------------------------------------------------------------------------------------
  // Popping.

  function Pop(stack: seq<Element>): (r: Result<(Element, seq<Element>), ScriptError>)
    ensures r.Ok? ==> stack == r.value.1 + [r.value.0]
  {
    if stack == [] then Err(InvalidStackOperation) else Ok((stack[|stack| - 1], stack[..|stack| - 1]))
  }

  function Top(stack: seq<Element>): Result<Element, ScriptError> {
    if stack == [] then Err(InvalidStackOperation) else Ok(stack[|stack| - 1])
  }

  function PopNum(env: Env, stack: seq<Element>): Result<(int, seq<Element>), ScriptError> {
    var p :- Pop(stack);
    var n :- Decode(p.0, env.flags.verifyMinimaldata, 4);
    Ok((n, p.1))
  }

  /** The top `n` elements, topmost first. */
  function PopMany(stack: seq<Element>, n: nat): (r: Result<(seq<Element>, seq<Element>), ScriptError>)
    ensures r.Ok? <==> n <= |stack|
    ensures r.Ok? ==> |r.value.0| == n && r.value.1 == stack[..|stack| - n]
  {
    if |stack| < n then Err(InvalidStackOperation)
    else Ok((seq(n, i requires 0 <= i < n => stack[|stack| - 1 - i]), stack[..|stack| - n]))
  }

  function Pushed(m: Machine, rest: seq<Element>, e: Element): Machine {
    m.(stack := rest + [e])
  }

  // ---------------------------------------------------------------------------------------------
  // Constants and control.

  function ExecPush(m: Machine, op: byte, data: Option<Element>): Result<Machine, ScriptError> {
    if op <= OP_PUSHDATA4 then Ok(if data.Some? then Pushed(m, m.stack, data.value) else m)
    else if op == OP_RESERVED then Err(DisabledOpcode(op))
    else Ok(Pushed(m, m.stack, Encode(op - (OP_1 - 1))))
  }

  function ExecControl(m: Machine, op: byte): Result<Machine, ScriptError> {
    if op == 0x61 then Ok(m) // NOP
    else if op == 0x69 then // VERIFY
      var p :- Pop(m.stack);
      if CastToBool(p.0) then Ok(m.(stack := p.1)) else Err(Verify)
    else if op == 0x6a then Err(ReturnOpcode) // RETURN
    else Err(DisabledOpcode(op)) // VER
  }

  // ---------------------------------------------------------------------------------------------
  // The stack.

  function ExecStack(env: Env, m: Machine, op: byte): Result<Machine, ScriptError> {
    var s, n := m.stack, |m.stack|;
    if op == 0x6b then // TOALTSTACK
      var p :- Pop(s);
      Ok(m.(stack := p.1, alt := m.alt + [p.0]))
    else if op == 0x6c then // FROMALTSTACK
      if m.alt == [] then Err(InvalidAltstackOperation)
      else Ok(m.(stack := s + [m.alt[|m.alt| - 1]], alt := m.alt[..|m.alt| - 1]))
    else if op == 0x6d then if n < 2 then Err(InvalidStackOperation) else Ok(m.(stack := Dropped(s, 2))) // 2DROP
    else if op == 0x6e then if n < 2 then Err(InvalidStackOperation) else Ok(m.(stack := Duplicated(s, 2))) // 2DUP
    else if op == 0x6f then if n < 3 then Err(InvalidStackOperation) else Ok(m.(stack := Duplicated(s, 3))) // 3DUP
    else if op == 0x70 then if n < 4 then Err(InvalidStackOperation) else Ok(m.(stack := CopiedOver(s, 2))) // 2OVER
    else if op == 0x71 then if n < 6 then Err(InvalidStackOperation) else Ok(m.(stack := Rotated(s, 2))) // 2ROT
    else if op == 0x72 then if n < 4 then Err(InvalidStackOperation) else Ok(m.(stack := Swapped(s, 2))) // 2SWAP
    else if op == 0x73 then // IFDUP
      if n < 1 then Err(InvalidStackOperation) else Ok(if CastToBool(s[n - 1]) then m.(stack := Duplicated(s, 1)) else m)
    else if op == 0x74 then Ok(Pushed(m, s, Encode(n))) // DEPTH
    else if op == 0x75 then if n < 1 then Err(InvalidStackOperation) else Ok(m.(stack := Dropped(s, 1))) // DROP
    else if op == 0x76 then if n < 1 then Err(InvalidStackOperation) else Ok(m.(stack := Duplicated(s, 1))) // DUP
    else if op == 0x77 then if n < 2 then Err(InvalidStackOperation) else Ok(m.(stack := Nipped(s))) // NIP
    else if op == 0x78 then if n < 2 then Err(InvalidStackOperation) else Ok(m.(stack := CopiedOver(s, 1))) // OVER
    else if op == 0x79 || op == 0x7a then ExecPickRoll(env, m, op) // PICK, ROLL
    else if op == 0x7b then if n < 3 then Err(InvalidStackOperation) else Ok(m.(stack := Rotated(s, 1))) // ROT
    else if op == 0x7c then if n < 2 then Err(InvalidStackOperation) else Ok(m.(stack := Swapped(s, 1))) // SWAP
    else if n < 2 then Err(InvalidStackOperation) else Ok(m.(stack := Tucked(s))) // TUCK
  }

  function ExecPickRoll(env: Env, m: Machine, op: byte): Result<Machine, ScriptError> {
    var p :- PopNum(env, m.stack);
    var rest := p.1;
    if p.0 < 0 || p.0 >= |rest| then Err(InvalidStackOperation)
    else
      var at := |rest| - 1 - p.0;
      Ok(Pushed(m, if op == 0x79 then rest else Without(rest, at), rest[at]))
  }

  // ---------------------------------------------------------------------------------------------
  // Byte strings.

  function Bitwise(op: byte, a: byte, b: byte): byte {
    var x, y := a as bv8, b as bv8;
    (if op == 0x84 then x & y else if op == 0x85 then x | y else x ^ y) as int
  }

  function ExecBitwise(m: Machine, op: byte): Result<Machine, ScriptError> {
    var p :- Pop(m.stack);
    var mask, rest := p.0, p.1;
    var value :- Top(rest);
    if |mask| != |value| then Err(InvalidOperandSize)
    else
      var masked := seq(|value|, i requires 0 <= i < |value| && |mask| == |value| => Bitwise(op, value[i], mask[i]));
      Ok(m.(stack := rest[|rest| - 1 := masked]))
  }

  function ExecCat(m: Machine): Result<Machine, ScriptError> {
    var p :- Pop(m.stack);
    var value :- Top(p.1);
    if |value| + |p.0| > MAX_SCRIPT_ELEMENT_SIZE then Err(PushSize)
    else Ok(m.(stack := p.1[|p.1| - 1 := value + p.0]))
  }

  function ExecSplit(env: Env, m: Machine): Result<Machine, ScriptError> {
    var p :- PopNum(env, m.stack);
    if p.0 < 0 then Err(InvalidStackOperation)
    else
      var value :- Top(p.1);
      if p.0 > |value| then Err(InvalidSplitRange)
      else Ok(m.(stack := p.1[|p.1| - 1 := value[..p.0]] + [value[p.0..]]))
  }

  /** `Num::minimally_encode` followed by `to_bytes`. */
  function Minimized(e: Element): Result<Element, ScriptError> {
    var minimal := Encode(Meaning(e));
    if |minimal| <= 4 then Ok(minimal) else Err(NumberOverflow)
  }

  function ExecNum2Bin(env: Env, m: Machine): Result<Machine, ScriptError> {
    var p :- PopNum(env, m.stack);
    var size := p.0;
    if size < 0 || size > MAX_SCRIPT_ELEMENT_SIZE then Err(PushSize)
    else
      var q :- Pop(p.1);
      var num :- Minimized(q.0);
      if |num| > size then Err(ImpossibleEncoding) else Ok(Pushed(m, q.1, Widen(num, size)))
  }

  function ExecBin2Num(m: Machine): Result<Machine, ScriptError> {
    var p :- Pop(m.stack);
    var num :- Minimized(p.0);
    Ok(Pushed(m, p.1, num))
  }

  function ExecEqual(m: Machine, op: byte): Result<Machine, ScriptError> {
    var p :- Pop(m.stack);
    var q :- Pop(p.1);
    if op == OP_EQUAL then Ok(Pushed(m, q.1, BoolElement(p.0 == q.0)))
    else if p.0 == q.0 then Ok(m.(stack := q.1))
    else Err(EqualVerify)
  }

  function ExecBytes(env: Env, m: Machine, op: byte): Result<Machine, ScriptError> {
    if op == 0x7e then ExecCat(m)
    else if op == 0x7f then ExecSplit(env, m)
    else if op == 0x80 then ExecNum2Bin(env, m)
    else if op == 0x81 then ExecBin2Num(m)
    else if op == 0x82 then // SIZE
      var top :- Top(m.stack);
      Ok(Pushed(m, m.stack, Encode(|top|)))
    else if 0x84 <= op <= 0x86 then ExecBitwise(m, op)
    else if op == OP_EQUAL || op == OP_EQUALVERIFY then ExecEqual(m, op)
    else Err(DisabledOpcode(op)) // INVERT, RESERVED1, RESERVED2
  }

  // ---------------------------------------------------------------------------------------------
  // Numbers. `v1` is the top of the stack and `v2` the element below it.

  function Abs(v: int): nat {
    if v < 0 then 0 - v else v
  }

  /** Division as the source's language defines it: truncated towards zero. */
  function Quotient(a: int, b: int): int
    requires b != 0
  {
    if (a < 0) == (b < 0) then Abs(a) / Abs(b) else 0 - Abs(a) / Abs(b)
  }

  function Remainder(a: int, b: int): int
    requires b != 0
  {
    if a < 0 then 0 - Abs(a) % Abs(b) else Abs(a) % Abs(b)
  }

  function FromBool(b: bool): int {
    if b then 1 else 0
  }

  function UnaryResult(op: byte, v: int): int {
    if op == 0x8b then v + 1 // 1ADD
    else if op == 0x8c then v - 1 // 1SUB
    else if op == 0x8f then 0 - v // NEGATE
    else if op == 0x90 then Abs(v) // ABS
    else if op == 0x91 then FromBool(v == 0) // NOT
    else FromBool(v != 0) // 0NOTEQUAL
  }

  function BinaryResult(op: byte, v1: int, v2: int): int
    requires op == 0x96 || op == 0x97 ==> v2 != 0
  {
    if op == 0x93 then v1 + v2 // ADD
    else if op == 0x94 then v2 - v1 // SUB
    else if op == 0x96 then Quotient(v1, v2) // DIV
    else if op == 0x97 then Remainder(v1, v2) // MOD
    else if op == 0x9a then FromBool(v1 != 0 && v2 != 0) // BOOLAND
    else if op == 0x9b then FromBool(v1 != 0 || v2 != 0) // BOOLOR
    else if op == 0x9c then FromBool(v1 == v2) // NUMEQUAL
    else if op == 0x9e then FromBool(v1 != v2) // NUMNOTEQUAL
    else if op == 0x9f then FromBool(v1 > v2) // LESSTHAN
    else if op == 0xa0 then FromBool(v1 < v2) // GREATERTHAN
    else if op == 0xa1 then FromBool(v1 >= v2) // LESSTHANOREQUAL
    else if op == 0xa2 then FromBool(v1 <= v2) // GREATERTHANOREQUAL
    else if op == 0xa3 then (if v1 <= v2 then v1 else v2) // MIN
    else (if v1 <= v2 then v2 else v1) // MAX
  }

  function ExecUnary(env: Env, m: Machine, op: byte): Result<Machine, ScriptError> {
    var p :- PopNum(env, m.stack);
    Ok(Pushed(m, p.1, Encode(UnaryResult(op, p.0))))
  }

  function ExecBinary(env: Env, m: Machine, op: byte): Result<Machine, ScriptError> {
    var p :- PopNum(env, m.stack);
    var q :- PopNum(env, p.1);
    if (op == 0x96 || op == 0x97) && q.0 == 0 then Err(DivisionByZero)
    else if op != 0x9d then Ok(Pushed(m, q.1, Encode(BinaryResult(op, p.0, q.0))))
    else if p.0 == q.0 then Ok(m.(stack := q.1)) // NUMEQUALVERIFY
    else Err(NumEqualVerify)
  }

  function ExecWithin(env: Env, m: Machine): Result<Machine, ScriptError> {
    var p :- PopNum(env, m.stack);
    var q :- PopNum(env, p.1);
    var r :- PopNum(env, q.1);
    Ok(Pushed(m, r.1, BoolElement(q.0 <= r.0 < p.0)))
  }

  function ExecNumeric(env: Env, m: Machine, op: byte): Result<Machine, ScriptError> {
    if op == 0x8b || op == 0x8c || 0x8f <= op <= 0x92 then ExecUnary(env, m, op)
    else if op == 0xa5 then ExecWithin(env, m)
    else ExecBinary(env, m, op)
  }

  // ---------------------------------------------------------------------------------------------
  // Hashes and signatures.

  function Digest(checker: Checker, op: byte, e: Element): (r: Element)
    ensures |r| <= 32
  {
    if op == 0xa6 then checker.ripemd160(e)
    else if op == 0xa7 then checker.sha1(e)
    else if op == 0xa8 then checker.sha256(e)
    else if op == OP_HASH160 then checker.dhash160(e)
    else checker.dhash256(e)
  }

  /** The code a signature commits to, without the signature itself where the version asks for that. */
  function StripSignature(env: Env, code: seq<byte>, sig: Element): seq<byte> {
    if env.version == WitnessV0 || (env.version == ForkId && ParseHashType(env.version, sig).forkId) then code
    else FindAndDelete(code, PushData(sig))
  }

  /** The source's slice, extended to positions past the end, which are never reached. */
  function Subscript(script: seq<byte>, from: nat): seq<byte> {
    if from <= |script| then script[from..] else []
  }

  function StripSignatures(env: Env, code: seq<byte>, sigs: seq<Element>): seq<byte>
    decreases |sigs|
  {
    if sigs == [] then code else StripSignatures(env, StripSignature(env, code, sigs[0]), sigs[1..])
  }

  /** The plain form of a signature check pushes the answer, the verifying form insists on it. */
  function Answer(m: Machine, rest: seq<Element>, verifying: bool, success: bool, e: ScriptError): Result<Machine, ScriptError> {
    if !verifying then Ok(Pushed(m, rest, BoolElement(success)))
    else if success then Ok(m.(stack := rest))
    else Err(e)
  }

  function ExecCheckSig(env: Env, script: seq<byte>, m: Machine, op: byte): Result<Machine, ScriptError> {
    var p :- Pop(m.stack);
    var q :- Pop(p.1);
    var key, sig := p.0, q.0;
    var code := StripSignature(env, Subscript(script, m.begin), sig);
    var e := EncodingError(env, sig, key);
    if e.Some? then Err(e.value)
    else Answer(m, q.1, op != OP_CHECKSIG, CheckSignature(env, sig, key, code), CheckSigVerify)
  }

  function ExecCheckMultiSig(env: Env, script: seq<byte>, m: Machine, op: byte): Result<Machine, ScriptError> {
    var p :- PopNum(env, m.stack);
    if p.0 < 0 || p.0 > MAX_PUBKEYS_PER_MULTISIG then Err(PubkeyCount)
    else
      var keys :- PopMany(p.1, p.0);
      var q :- PopNum(env, keys.1);
      if q.0 < 0 || q.0 > p.0 then Err(SigCount)
      else
        var sigs :- PopMany(q.1, q.0);
        var code := StripSignatures(env, Subscript(script, m.begin), sigs.0);
        var success :- Match(env, code, sigs.0, keys.0, 0, 0);
        var dummy :- Pop(sigs.1);
        if dummy.0 != [] && env.flags.verifyNulldummy then Err(SignatureNullDummy)
        else Answer(m, dummy.1, op != 0xae, success, CheckSigVerify)
  }

  function ExecCheckDataSig(env: Env, m: Machine, op: byte): Result<Machine, ScriptError> {
    if !env.flags.verifyCheckdatasig then Err(DisabledOpcode(op))
    else
      var p :- Pop(m.stack);
      var q :- Pop(p.1);
      var r :- Pop(q.1);
      var key, message, sig := p.0, q.0, r.0;
      var e := EncodingError(env, sig, key);
      if e.Some? then Err(e.value)
      else Answer(m, r.1, op != 0xba, VerifySignature(env, sig, key, env.checker.sha256(message)), CheckDataSigVerify)
  }

  function ExecCrypto(env: Env, script: seq<byte>, m: Machine, op: byte, next: nat): Result<Machine, ScriptError> {
    if op <= 0xaa then
      var p :- Pop(m.stack);
      Ok(Pushed(m, p.1, Digest(env.checker, op, p.0)))
    else if op == 0xab then Ok(m.(begin := next)) // CODESEPARATOR
    else if op <= 0xad then ExecCheckSig(env, script, m, op)
    else ExecCheckMultiSig(env, script, m, op)
  }

  // ---------------------------------------------------------------------------------------------
  // Lock times and the opcodes kept for upgrades.

  function ExecLock(env: Env, m: Machine, op: byte): Result<Machine, ScriptError> {
    var enabled := if op == 0xb1 then env.flags.verifyLocktime else op == 0xb2 && env.flags.verifyChecksequence;
    if !enabled then
      if env.flags.verifyDiscourageUpgradableNops then Err(DiscourageUpgradableNops) else Ok(m)
    else
      var top :- Top(m.stack);
      var n :- Decode(top, env.flags.verifyMinimaldata, 5);
      if n < 0 then Err(NegativeLocktime)
      else if op == 0xb1 then
        if env.checker.checkLockTime(n) then Ok(m) else Err(UnsatisfiedLocktime)
      else if !HasBit(n, SEQUENCE_LOCKTIME_DISABLE_FLAG) && !env.checker.checkSequence(n) then Err(UnsatisfiedLocktime)
      else Ok(m)
  }

  // ---------------------------------------------------------------------------------------------
  // All of them.

  /** Executes an opcode other than a conditional; `next` is the position after it. */
  function ExecOp(env: Env, script: seq<byte>, m: Machine, op: byte, data: Option<Element>, next: nat): Result<Machine, ScriptError> {
    if IsDisabled(op, env.flags) then Err(DisabledOpcode(op))
    else if op <= OP_16 then ExecPush(m, op, data)
    else if op <= 0x6a then ExecControl(m, op)
    else if op <= 0x7d then ExecStack(env, m, op)
    else if op <= 0x8a then ExecBytes(env, m, op)
    else if op <= 0xa5 then ExecNumeric(env, m, op)
    else if op <= 0xaf then ExecCrypto(env, script, m, op, next)
    else if op <= 0xb9 then ExecLock(env, m, op)
    else ExecCheckDataSig(env, m, op)
  }

  // ---------------------------------------------------------------------------------------------
  // Element sizes.

  ghost predicate AllFit(s: seq<Element>) {
    forall i :: 0 <= i < |s| ==> |s[i]| <= MAX_SCRIPT_ELEMENT_SIZE
  }

  /** Both stacks are within the limits a step starts from. */
  ghost predicate Fits(m: Machine) {
    |m.stack| + |m.alt| <= MAX_STACK_SIZE && AllFit(m.stack) && AllFit(m.alt)
  }

  ghost predicate ResultFits(r: Result<Machine, ScriptError>) {
    r.Ok? ==> AllFit(r.value.stack) && AllFit(r.value.alt)
  }

  lemma {:induction false} OperandBound(e: Element, minimal: bool, size: nat)
    requires size <= 5
    ensures var r := Decode(e, minimal, size); r.Ok? ==> -0x100_0000_0000 < r.value < 0x100_0000_0000
  {
    if e != [] && |e| <= size {
      ValueSplit(e);
      ValueBound(e);
      PowMonotone(|e|, 5);
      SignBit(e);
      assert Pow256(|e| - 1) * 128 >= 0;
      assert Pow256(5) == 0x100_0000_0000;
    }
  }

  lemma {:induction false} NumberFits(v: int)
    requires -0x8000_0000_0000_0000 < v < 0x8000_0000_0000_0000
    ensures |Encode(v)| <= MAX_SCRIPT_ELEMENT_SIZE
  {
    FitsEightBytes(v);
  }

  lemma {:induction false} PushFits(m: Machine, op: byte, data: Option<Element>)
    requires Fits(m) && op <= OP_16 && (data.Some? ==> |data.value| <= MAX_SCRIPT_ELEMENT_SIZE)
    ensures ResultFits(ExecPush(m, op, data))
  {
  }

  lemma {:induction false} GroupsFit(s: seq<Element>, i: nat)
    requires AllFit(s)
    ensures i <= |s| ==> AllFit(Dropped(s, i)) && AllFit(Duplicated(s, i))
    ensures 2 * i <= |s| ==> AllFit(CopiedOver(s, i)) && AllFit(Swapped(s, i))
    ensures 3 * i <= |s| ==> AllFit(Rotated(s, i))
  {
  }

  lemma {:induction false} TuckFits(s: seq<Element>)
    requires AllFit(s) && 2 <= |s|
    ensures AllFit(Nipped(s)) && AllFit(Tucked(s))
  {
  }

  lemma {:induction false} StackFits(env: Env, m: Machine, op: byte)
    requires Fits(m)
    ensures ResultFits(ExecStack(env, m, op))
  {
    hide Encode, CastToBool, Dropped, Duplicated, CopiedOver, Swapped, Rotated, Nipped, Tucked, ExecPickRoll, AllFit;
    PushOneFits(m.stack, |m.stack|);
    MovedFits(m);
    GroupsFit(m.stack, 1);
    GroupsFit(m.stack, 2);
    GroupsFit(m.stack, 3);
    if |m.stack| >= 2 {
      TuckFits(m.stack);
    }
    PickRollFits(env, m, op);
  }

  lemma {:induction false} PushOneFits(s: seq<Element>, n: nat)
    requires AllFit(s) && n <= MAX_STACK_SIZE
    ensures AllFit(s + [Encode(n)])
  {
    NumberFits(n);
  }

  /** Moving the top of one stack to the other. */
  lemma {:induction false} MovedFits(m: Machine)
    requires Fits(m)
    ensures m.stack != [] ==> AllFit(m.stack[..|m.stack| - 1]) && AllFit(m.alt + [m.stack[|m.stack| - 1]])
    ensures m.alt != [] ==> AllFit(m.alt[..|m.alt| - 1]) && AllFit(m.stack + [m.alt[|m.alt| - 1]])
  {
  }

  lemma {:induction false} PickRollFits(env: Env, m: Machine, op: byte)
    requires Fits(m)
    ensures ResultFits(ExecPickRoll(env, m, op))
  {
  }

  lemma {:induction false} BytesFit(env: Env, m: Machine, op: byte)
    requires Fits(m)
    ensures ResultFits(ExecBytes(env, m, op))
  {
    hide Encode, Decode, ExecNum2Bin, ExecBin2Num, ExecBitwise;
    FixedWidthFits(env, m);
    BitwiseFits(m, op);
    if m.stack != [] {
      NumberFits(|m.stack[|m.stack| - 1]|);
    }
  }

  lemma {:induction false} BitwiseFits(m: Machine, op: byte)
    requires Fits(m)
    ensures ResultFits(ExecBitwise(m, op))
  {
  }

  lemma {:induction false} FixedWidthFits(env: Env, m: Machine)
    requires Fits(m)
    ensures ResultFits(ExecNum2Bin(env, m)) && ResultFits(ExecBin2Num(m))
  {
    hide Encode, Decode, Meaning, Widen;
  }

  lemma {:induction false} PartsBound(x: nat, y: nat, q: nat, r: nat)
    requires y > 0 && x == y * q + r && r < y
    ensures q <= x && r <= x
  {
  }

  lemma {:induction false} DivisionBound(x: nat, y: nat)
    requires y > 0
    ensures x / y <= x && x % y <= x
  {
    PartsBound(x, y, x / y, x % y);
  }

  lemma {:induction false} QuotientBound(a: int, b: int)
    requires b != 0
    ensures Abs(Quotient(a, b)) <= Abs(a) && Abs(Remainder(a, b)) <= Abs(a)
  {
    DivisionBound(Abs(a), Abs(b));
  }

  lemma {:induction false} PopNumFits(env: Env, stack: seq<Element>)
    requires AllFit(stack)
    ensures var p := PopNum(env, stack);
            p.Ok? ==> AllFit(p.value.1) && -0x100_0000_0000 < p.value.0 < 0x100_0000_0000
  {
    hide Decode;
    if stack != [] {
      OperandBound(stack[|stack| - 1], env.flags.verifyMinimaldata, 4);
    }
  }

  lemma {:induction false} NumericFits(env: Env, m: Machine, op: byte)
    requires Fits(m)
    ensures ResultFits(ExecNumeric(env, m, op))
  {
    hide PopNum, Encode, BinaryResult, UnaryResult;
    var p := PopNum(env, m.stack);
    PopNumFits(env, m.stack);
    if p.Ok? {
      UnaryFits(op, p.value.0);
      var q := PopNum(env, p.value.1);
      PopNumFits(env, p.value.1);
      if q.Ok? {
        PopNumFits(env, q.value.1);
        if op == 0x96 || op == 0x97 ==> q.value.0 != 0 {
          BinaryFits(op, p.value.0, q.value.0);
        }
      }
    }
  }

  lemma {:induction false} UnaryFits(op: byte, v: int)
    requires -0x100_0000_0000 < v < 0x100_0000_0000
    ensures |Encode(UnaryResult(op, v))| <= MAX_SCRIPT_ELEMENT_SIZE
  {
    NumberFits(UnaryResult(op, v));
  }

  lemma {:induction false} BinaryFits(op: byte, v1: int, v2: int)
    requires -0x100_0000_0000 < v1 < 0x100_0000_0000 && -0x100_0000_0000 < v2 < 0x100_0000_0000
    requires op == 0x96 || op == 0x97 ==> v2 != 0
    ensures |Encode(BinaryResult(op, v1, v2))| <= MAX_SCRIPT_ELEMENT_SIZE
  {
    if op == 0x96 || op == 0x97 {
      QuotientBound(v1, v2);
    }
    NumberFits(BinaryResult(op, v1, v2));
  }

  lemma {:induction false} CryptoFits(env: Env, script: seq<byte>, m: Machine, op: byte, next: nat)
    requires Fits(m)
    ensures ResultFits(ExecCrypto(env, script, m, op, next))
  {
    hide Decode, ExecCheckMultiSig, StripSignature, EncodingError, CheckSignature, Digest;
    MultiSigFits(env, script, m, op);
  }

  lemma {:induction false} MultiSigFits(env: Env, script: seq<byte>, m: Machine, op: byte)
    requires Fits(m)
    ensures ResultFits(ExecCheckMultiSig(env, script, m, op))
  {
    hide Decode, Match, StripSignatures;
    var p := PopNum(env, m.stack);
    if p.Ok? && 0 <= p.value.0 <= |p.value.1| {
      var keys := PopMany(p.value.1, p.value.0);
      assert AllFit(keys.value.1);
      var q := PopNum(env, keys.value.1);
      if q.Ok? && 0 <= q.value.0 {
        assert AllFit(q.value.1);
      }
    }
  }

  /** No opcode makes an element longer than the limit, or moves the code start anywhere but to the
      position after itself. */
  lemma {:induction false} ExecOpFits(env: Env, script: seq<byte>, m: Machine, op: byte, data: Option<Element>, next: nat)
    requires Fits(m) && (data.Some? ==> |data.value| <= MAX_SCRIPT_ELEMENT_SIZE)
    ensures var r := ExecOp(env, script, m, op, data, next);
            ResultFits(r) && (r.Ok? ==> r.value.begin == if op == 0xab then next else m.begin)
  {
    hide ExecPush, ExecControl, ExecStack, ExecBytes, ExecNumeric, ExecCrypto, ExecLock, ExecCheckDataSig, IsDisabled;
    if op <= OP_16 {
      PushFits(m, op, data);
    }
    StackFits(env, m, op);
    BytesFit(env, m, op);
    NumericFits(env, m, op);
    CryptoFits(env, script, m, op, next);
    RestFits(env, m, op);
    CodeStart(env, script, m, op, data, next);
  }

  lemma {:induction false} RestFits(env: Env, m: Machine, op: byte)
    requires Fits(m)
    ensures ResultFits(ExecControl(m, op)) && ResultFits(ExecLock(env, m, op)) && ResultFits(ExecCheckDataSig(env, m, op))
  {
    hide ExecCheckDataSig, Decode, CastToBool;
    DataSigFits(env, m, op);
  }

  lemma {:induction false} DataSigFits(env: Env, m: Machine, op: byte)
    requires Fits(m)
    ensures ResultFits(ExecCheckDataSig(env, m, op))
  {
    hide EncodingError, VerifySignature;
    if |m.stack| >= 3 {
      var rest := m.stack[..|m.stack| - 3];
      assert m.stack[..|m.stack| - 1][..|m.stack| - 2] == m.stack[..|m.stack| - 2];
      assert m.stack[..|m.stack| - 2][..|m.stack| - 3] == rest;
      assert AllFit(rest + [BoolElement(true)]) && AllFit(rest + [BoolElement(false)]);
    }
  }

  lemma {:induction false} CodeStart(env: Env, script: seq<byte>, m: Machine, op: byte, data: Option<Element>, next: nat)
    ensures var r := ExecOp(env, script, m, op, data, next); r.Ok? ==> r.value.begin == if op == 0xab then next else m.begin
  {
    hide Decode, Encode, CastToBool, Match, StripSignatures, StripSignature, EncodingError, CheckSignature, VerifySignature,
         Digest, BinaryResult, UnaryResult, Pop, PopNum, PopMany, Top, Minimized, Widen;
  }
}
