/** The original signature hash: the transaction is rewritten, serialized and hashed with the hash type
    (script/src/sign.rs). */
module OriginalSignatureHashes {
  import opened Primitives
  import opened Chain
  import opened LittleEndian
  import opened Script
  import opened Serialization
  import opened TransactionCodec
  import opened Signatures
  import opened SignatureHashes

  const OP_CODESEPARATOR: byte := 0xab

  /** The bytes kept of the token at `pc`; a malformed instruction is kept byte by byte. */
  function Kept(script: seq<byte>, pc: nat): (r: seq<byte>)
    requires pc < |script|
    ensures |r| <= TokenAt(script, pc).next - pc
  {
    var t := TokenAt(script, pc);
    if t.Instr? && t.op == OP_CODESEPARATOR then [] else script[pc..t.next]
  }

  /** The script from `pc` on without its separator instructions. */
  function Stripped(script: seq<byte>, pc: nat): (r: seq<byte>)
    ensures |r| <= if pc < |script| then |script| - pc else 0
    decreases |script| - pc
  {
    if pc >= |script| then [] else Kept(script, pc) + Stripped(script, TokenAt(script, pc).next)
  }

  method WithoutSeparators(script: seq<byte>) returns (result: seq<byte>)
    ensures result == Stripped(script, 0)
  {
    result := [];
    var pc := 0;
    while pc < |script|
      invariant 0 <= pc <= |script|
      invariant Stripped(script, 0) == result + Stripped(script, pc)
      decreases |script| - pc
    {
      hide Kept, TokenAt;
      var chunk, next := NextChunk(script, pc);
      Regroup(result, chunk, Stripped(script, next));
      result, pc := result + chunk, next;
    }
  }

  method NextChunk(script: seq<byte>, pc: nat) returns (chunk: seq<byte>, next: nat)
    requires pc < |script|
    ensures chunk == Kept(script, pc) && next == TokenAt(script, pc).next
  {
    hide GetInstruction;
    var instruction := GetInstruction(script, pc);
    if instruction.Ok? {
      next := pc + instruction.value.step;
      chunk := if instruction.value.opcode != OP_CODESEPARATOR then script[pc..next] else [];
    } else {
      next, chunk := pc + 1, [script[pc]];
    }
  }

  lemma {:induction false} Regroup(a: seq<byte>, b: seq<byte>, c: seq<byte>)
    ensures a + (b + c) == a + b + c
  {
  }

  function SignedInput(m: Message, n: nat): TransactionInput
    requires n < |m.signer.inputs|
  {
    var input, own := m.signer.inputs[n], n == m.index;
    TransactionInput(
      input.previousOutput,
      if own then Stripped(m.code, 0) else [],
      if !own && Type(m).base != SignAll then 0 else input.sequence,
      [])
  }

  function SignedInputs(m: Message): seq<TransactionInput>
    requires m.index < |m.signer.inputs|
  {
    if Type(m).anyoneCanPay then [SignedInput(m, m.index)]
    else seq(|m.signer.inputs|, n requires 0 <= n < |m.signer.inputs| => SignedInput(m, n))
  }

  const DEFAULT_OUTPUT := TransactionOutput(0xffff_ffff_ffff_ffff, [])

  function SignedOutputs(m: Message): seq<TransactionOutput>
    requires !OutOfRange(m)
  {
    match Type(m).base
    case SignAll => m.signer.outputs
    case SignSingle => seq(m.index + 1, n => if n == m.index then m.signer.outputs[m.index] else DEFAULT_OUTPUT)
    case SignNone => []
  }

  /** The transaction that is serialized. */
  function Rewritten(m: Message): Transaction
    requires !OutOfRange(m)
  {
    Transaction(m.signer.version, SignedInputs(m), SignedOutputs(m), m.signer.lockTime)
  }

  function OriginalPreimage(m: Message): seq<byte>
    requires !OutOfRange(m)
  {
    TransactionBytes(Rewritten(m), false) + Bytes(m.hashType, 4)
  }

  function OriginalHash(dhash: seq<byte> -> H256, m: Message): H256 {
    if OutOfRange(m) then ONE_HASH else dhash(OriginalPreimage(m))
  }

  ghost predicate Countable(m: Message) {
    Valid(m) && Short(m.signer.inputs) && Short(m.signer.outputs)
  }

  lemma {:induction false} RewrittenReads(m: Message)
    requires !OutOfRange(m) && Countable(m)
    ensures Reads(ReadTransaction, TransactionBytes(Rewritten(m), false), Rewritten(m))
  {
    hide ReadTransaction, TransactionBytes, Stripped;
    var tx := Rewritten(m);
    assert Encodable(tx);
    assert ClearedInputs(tx.inputs) == tx.inputs;
    forall tail: seq<byte>
      ensures ReadTransaction(TransactionBytes(tx, false) + tail) == Ok((tx, tail))
    {
      UnflaggedRoundTrip(tx, tail);
    }
  }

  /** Equal hashes come from equal rewritten transactions and equal hash types, and only from them. */
  lemma {:induction false} OriginalHashBinds(dhash: seq<byte> -> H256, a: Message, b: Message)
    requires Countable(a) && Countable(b) && !OutOfRange(a) && !OutOfRange(b)
    ensures NoCollisions(dhash, {OriginalPreimage(a), OriginalPreimage(b)}) ==>
              (OriginalHash(dhash, a) == OriginalHash(dhash, b) <==> Rewritten(a) == Rewritten(b) && a.hashType == b.hashType)
  {
    hide Rewritten, TransactionBytes, ReadTransaction, Bytes;
    if NoCollisions(dhash, {OriginalPreimage(a), OriginalPreimage(b)}) && OriginalHash(dhash, a) == OriginalHash(dhash, b) {
      assert OriginalPreimage(a) == OriginalPreimage(b);
      RewrittenReads(a);
      RewrittenReads(b);
      Peel(ReadTransaction, TransactionBytes(Rewritten(a), false), Rewritten(a), Bytes(a.hashType, 4),
           TransactionBytes(Rewritten(b), false), Rewritten(b), Bytes(b.hashType, 4));
      assert Bytes(a.hashType, 4) + [] == Bytes(b.hashType, 4) + [];
      PeelU32(a.hashType, [], b.hashType, []);
    }
  }

  // ---------------------------------------------------------------------------------------------
  // The fields a hash type commits to.

  datatype SequenceCommitment =
    | EverySequence(sequences: seq<u32>)
    | OwnSequence(own: Option<(nat, u32)>)

  /** The position of the signed input shows only where the signed code, or its own sequence, is there to
      mark it. */
  datatype InputCommitment =
    | SoleInput(input: UnsignedInput, code: seq<byte>)
    | EveryInput(prevouts: seq<OutPoint>, signed: Option<(nat, seq<byte>)>, sequences: SequenceCommitment)

  datatype OutputCommitment =
    | EveryOutput(outputs: seq<TransactionOutput>)
    | OutputAt(index: nat, output: TransactionOutput)
    | NoOutput

  datatype OriginalCommitment = OriginalCommitment(
    version: i32,
    inputs: InputCommitment,
    outputs: OutputCommitment,
    lockTime: u32,
    hashType: u32)

  /** A value at a position, unless it is the blank that all other positions hold. */
  function Shown<T(==)>(i: nat, v: T, blank: T): Option<(nat, T)> {
    if v == blank then None else Some((i, v))
  }

  function CommittedInputs(m: Message): InputCommitment
    requires m.index < |m.signer.inputs|
  {
    var inputs, own, code := m.signer.inputs, m.signer.inputs[m.index], Stripped(m.code, 0);
    if Type(m).anyoneCanPay then SoleInput(own, code)
    else EveryInput(Prevouts(inputs), Shown(m.index, code, []),
                    if Type(m).base == SignAll then EverySequence(Sequences(inputs)) else OwnSequence(Shown(m.index, own.sequence, 0)))
  }

  function CommittedOutputs(m: Message): OutputCommitment
    requires !OutOfRange(m)
  {
    match Type(m).base
    case SignAll => EveryOutput(m.signer.outputs)
    case SignSingle => OutputAt(m.index, m.signer.outputs[m.index])
    case SignNone => NoOutput
  }

  function OriginallyCommitted(m: Message): OriginalCommitment
    requires !OutOfRange(m)
  {
    OriginalCommitment(m.signer.version, CommittedInputs(m), CommittedOutputs(m), m.signer.lockTime, m.hashType)
  }

  /** One value among blanks. */
  function Placed<T>(n: nat, i: nat, v: T, blank: T): seq<T> {
    seq(n, k => if k == i then v else blank)
  }

  lemma {:induction false} PlacedShows<T>(n: nat, i: nat, v: T, j: nat, w: T, blank: T)
    requires i < n && j < n
    ensures Placed(n, i, v, blank) == Placed(n, j, w, blank) <==> Shown(i, v, blank) == Shown(j, w, blank)
  {
    var x, y := Placed(n, i, v, blank), Placed(n, j, w, blank);
    assert x[i] == v && y[j] == w && (i != j ==> x[j] == blank && y[i] == blank);
    if Shown(i, v, blank) == Shown(j, w, blank) {
      assert forall k :: 0 <= k < n ==> x[k] == y[k];
    }
  }

  /** The rewritten inputs, column by column. */
  lemma {:induction false} InputColumns(a: Message, b: Message)
    requires a.index < |a.signer.inputs| && b.index < |b.signer.inputs| && a.hashType == b.hashType && !Type(a).anyoneCanPay
    ensures SignedInputs(a) == SignedInputs(b) <==>
            && Prevouts(a.signer.inputs) == Prevouts(b.signer.inputs)
            && Placed(|a.signer.inputs|, a.index, Stripped(a.code, 0), []) == Placed(|b.signer.inputs|, b.index, Stripped(b.code, 0), [])
            && SignedSequences(a) == SignedSequences(b)
  {
    hide Stripped;
    var xs, ys := SignedInputs(a), SignedInputs(b);
    var p, q := Prevouts(a.signer.inputs), Prevouts(b.signer.inputs);
    var c, d := Placed(|a.signer.inputs|, a.index, Stripped(a.code, 0), []), Placed(|b.signer.inputs|, b.index, Stripped(b.code, 0), []);
    var u, v := SignedSequences(a), SignedSequences(b);
    assert forall n :: 0 <= n < |xs| ==> xs[n] == TransactionInput(p[n], c[n], u[n], []);
    assert forall n :: 0 <= n < |ys| ==> ys[n] == TransactionInput(q[n], d[n], v[n], []);
    if xs == ys {
      forall n | 0 <= n < |xs|
        ensures p[n] == q[n] && c[n] == d[n] && u[n] == v[n]
      {
        assert xs[n] == ys[n];
      }
    }
  }

  function SignedSequences(m: Message): seq<u32>
    requires m.index < |m.signer.inputs|
  {
    if Type(m).base == SignAll then Sequences(m.signer.inputs)
    else Placed(|m.signer.inputs|, m.index, m.signer.inputs[m.index].sequence, 0)
  }

  lemma {:induction false} InputsCommit(a: Message, b: Message)
    requires a.index < |a.signer.inputs| && b.index < |b.signer.inputs| && a.hashType == b.hashType
    ensures SignedInputs(a) == SignedInputs(b) <==> CommittedInputs(a) == CommittedInputs(b)
  {
    hide Stripped, Placed;
    var xs, ys := a.signer.inputs, b.signer.inputs;
    if Type(a).anyoneCanPay {
      assert SignedInputs(a)[0] == SignedInput(a, a.index) && SignedInputs(b)[0] == SignedInput(b, b.index);
    } else {
      InputColumns(a, b);
      assert Prevouts(xs) == Prevouts(ys) ==> |xs| == |ys|;
      if |xs| == |ys| {
        PlacedShows(|xs|, a.index, Stripped(a.code, 0), b.index, Stripped(b.code, 0), []);
        PlacedShows(|xs|, a.index, xs[a.index].sequence, b.index, ys[b.index].sequence, 0);
      }
    }
  }

  lemma {:induction false} SignedOutputsCommit(a: Message, b: Message)
    requires !OutOfRange(a) && !OutOfRange(b) && a.hashType == b.hashType
    ensures SignedOutputs(a) == SignedOutputs(b) <==> CommittedOutputs(a) == CommittedOutputs(b)
  {
    if Type(a).base == SignSingle && SignedOutputs(a) == SignedOutputs(b) {
      assert |SignedOutputs(a)| == |SignedOutputs(b)|;
      assert SignedOutputs(a)[a.index] == SignedOutputs(b)[a.index];
    }
  }

  /** Under one hash type the rewritten transactions agree exactly when the committed fields do. */
  lemma {:induction false} RewrittenCommits(a: Message, b: Message)
    requires !OutOfRange(a) && !OutOfRange(b)
    ensures Rewritten(a) == Rewritten(b) && a.hashType == b.hashType <==> OriginallyCommitted(a) == OriginallyCommitted(b)
  {
    hide SignedInputs, SignedOutputs, CommittedInputs, CommittedOutputs;
    if a.hashType == b.hashType {
      InputsCommit(a, b);
      SignedOutputsCommit(a, b);
    }
  }

  /** So the hash binds exactly those fields. */
  lemma {:induction false} OriginalHashBindsCommitment(dhash: seq<byte> -> H256, a: Message, b: Message)
    requires Countable(a) && Countable(b) && !OutOfRange(a) && !OutOfRange(b)
    ensures NoCollisions(dhash, {OriginalPreimage(a), OriginalPreimage(b)}) ==>
              (OriginalHash(dhash, a) == OriginalHash(dhash, b) <==> OriginallyCommitted(a) == OriginallyCommitted(b))
  {
    hide OriginalPreimage, OriginalHash, NoCollisions, Rewritten, OriginallyCommitted;
    OriginalHashBinds(dhash, a, b);
    RewrittenCommits(a, b);
  }
}
