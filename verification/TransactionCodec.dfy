/** The wire format of transactions, with and without witnesses (chain/src/transaction.rs). */
module TransactionCodec {
  import opened Primitives
  import opened Chain
  import opened LittleEndian
  import opened Serialization

  const WITNESS_MARKER: byte := 0
  const WITNESS_FLAG: byte := 1

  // ---------------------------------------------------------------------------------------------
  // Writing.

  /** A hash is its 32 bytes in storage order, most significant first. */
  function HashBytes(h: H256): (b: seq<byte>)
    ensures |b| == 32
  {
    Reversed(Bytes(h, 32))
  }

  function OutPointBytes(o: OutPoint): seq<byte> {
    HashBytes(o.hash) + Bytes(o.index, 4)
  }

  function InputBytes(i: TransactionInput): seq<byte> {
    OutPointBytes(i.previousOutput) + (BlobBytes(i.scriptSig) + Bytes(i.sequence, 4))
  }

  function OutputBytes(o: TransactionOutput): seq<byte> {
    Bytes(o.value, 8) + BlobBytes(o.scriptPubkey)
  }

  /** Two's complement. */
  function VersionBytes(v: i32): seq<byte> {
    Bytes(if v < 0 then v + 0x1_0000_0000 else v, 4)
  }

  function StackBytes(stack: seq<seq<byte>>): seq<byte> {
    ListBytes(stack, BlobBytes)
  }

  function InputWitnessBytes(i: TransactionInput): seq<byte> {
    StackBytes(i.scriptWitness)
  }

  /** The witness stacks of all inputs, without a count. */
  function WitnessBytes(inputs: seq<TransactionInput>): seq<byte> {
    ItemsBytes(inputs, InputWitnessBytes)
  }

  function BodyBytes(tx: Transaction): seq<byte> {
    ListBytes(tx.inputs, InputBytes) + ListBytes(tx.outputs, OutputBytes)
  }

  function TransactionBytes(tx: Transaction, includeWitness: bool): seq<byte> {
    if includeWitness && tx.HasWitness() then
      VersionBytes(tx.version) + ([WITNESS_MARKER, WITNESS_FLAG] + (BodyBytes(tx) + (WitnessBytes(tx.inputs) + Bytes(tx.lockTime, 4))))
    else VersionBytes(tx.version) + (BodyBytes(tx) + Bytes(tx.lockTime, 4))
  }

  // ---------------------------------------------------------------------------------------------
  // Reading.

  lemma {:induction false} HashWidth()
    ensures Pow256(32) == 0x1_0000000000000000_0000000000000000_0000000000000000_0000000000000000
  {
    Widths();
    PowSum(8, 8);
    PowSum(16, 16);
  }

  function ReadHash(s: seq<byte>): Parsed<H256> {
    var p :- ReadSlice(s, 32);
    ValueBound(Reversed(p.0));
    HashWidth();
    Ok((Value(Reversed(p.0)), p.1))
  }

  function ReadOutPoint(s: seq<byte>): Parsed<OutPoint> {
    var hash :- ReadHash(s);
    var index :- ReadU32(hash.1);
    Ok((OutPoint(hash.0, index.0), index.1))
  }

  function ReadInput(s: seq<byte>): Parsed<TransactionInput> {
    var previous :- ReadOutPoint(s);
    var script :- ReadBlob(previous.1);
    var sequence :- ReadU32(script.1);
    Ok((TransactionInput(previous.0, script.0, sequence.0, []), sequence.1))
  }

  function ReadOutput(s: seq<byte>): Parsed<TransactionOutput> {
    var value :- ReadU64(s);
    var script :- ReadBlob(value.1);
    Ok((TransactionOutput(value.0, script.0), script.1))
  }

  function ReadVersion(s: seq<byte>): Parsed<i32> {
    var v :- ReadU32(s);
    Ok((if v.0 >= 0x8000_0000 then v.0 - 0x1_0000_0000 else v.0, v.1))
  }

  function ReadStack(s: seq<byte>): Parsed<seq<seq<byte>>> {
    ReadList(s, ReadBlob)
  }

  /** One witness stack for every input from `i` on. */
  function ReadWitnesses(s: seq<byte>, inputs: seq<TransactionInput>, i: nat): (r: Parsed<seq<TransactionInput>>)
    requires i <= |inputs|
    ensures r.Ok? ==> |r.value.0| == |inputs|
    decreases |inputs| - i
  {
    if i == |inputs| then Ok((inputs, s))
    else
      var stack :- ReadStack(s);
      ReadWitnesses(stack.1, inputs[i := inputs[i].(scriptWitness := stack.0)], i + 1)
  }

  /** The inputs, behind the marker and the flag if they are there; says whether witnesses follow. */
  function ReadInputs(s: seq<byte>): Parsed<(seq<TransactionInput>, bool)> {
    var inputs :- ReadList(s, ReadInput);
    if inputs.0 != [] then Ok(((inputs.0, false), inputs.1))
    else if inputs.1 == [] then Err(UnexpectedEnd)
    else if inputs.1[0] != WITNESS_FLAG then Err(MalformedData)
    else
      var marked :- ReadList(inputs.1[1..], ReadInput);
      Ok(((marked.0, true), marked.1))
  }

  function ReadTransaction(s: seq<byte>): Parsed<Transaction> {
    var version :- ReadVersion(s);
    var inputs :- ReadInputs(version.1);
    var outputs :- ReadList(inputs.1, ReadOutput);
    var witnessed :- if inputs.0.1 then ReadWitnesses(outputs.1, inputs.0.0, 0) else Ok((inputs.0.0, outputs.1));
    var lockTime :- ReadU32(witnessed.1);
    Ok((Transaction(version.0, witnessed.0, outputs.0, lockTime.0), lockTime.1))
  }

  // ---------------------------------------------------------------------------------------------
  // The loops.

  method SerializeTransaction(tx: Transaction, includeWitness: bool) returns (stream: seq<byte>)
    ensures stream == TransactionBytes(tx, includeWitness)
  {
    hide CompactBytes, Bytes, ListBytes, ItemsBytes, Transaction.HasWitness;
    stream := VersionBytes(tx.version);
    if !(includeWitness && tx.HasWitness()) {
      stream := AppendList(stream, tx.inputs, InputBytes);
      stream := AppendList(stream, tx.outputs, OutputBytes);
      stream := stream + Bytes(tx.lockTime, 4);
    } else {
      stream := stream + [WITNESS_MARKER] + [WITNESS_FLAG];
      stream := AppendList(stream, tx.inputs, InputBytes);
      stream := AppendList(stream, tx.outputs, OutputBytes);
      stream := AppendWitnesses(stream, tx.inputs);
      stream := stream + Bytes(tx.lockTime, 4);
    }
  }

  method AppendWitnesses(stream: seq<byte>, inputs: seq<TransactionInput>) returns (out: seq<byte>)
    ensures out == stream + WitnessBytes(inputs)
  {
    hide ListBytes, CompactBytes;
    out := stream;
    for i := 0 to |inputs|
      invariant out == stream + ItemsBytes(inputs[..i], InputWitnessBytes)
    {
      out := AppendList(out, inputs[i].scriptWitness, BlobBytes);
      ItemsSnoc(inputs[..i], inputs[i], InputWitnessBytes);
      assert inputs[..i + 1] == inputs[..i] + [inputs[i]];
      assert out == stream + (ItemsBytes(inputs[..i], InputWitnessBytes) + InputWitnessBytes(inputs[i]));
    }
    assert inputs[..|inputs|] == inputs;
  }

  method DeserializeTransaction(s: seq<byte>) returns (r: Parsed<Transaction>)
    ensures r == ReadTransaction(s)
  {
    hide ReadList, ReadVersion, ReadU32;
    var version := ReadVersion(s);
    if version.Err? {
      return Err(version.error);
    }
    var inputs := ReadListLoop(version.value.1, ReadInput);
    if inputs.Err? {
      return Err(inputs.error);
    }
    var readWitness := false;
    if inputs.value.0 == [] {
      var left := inputs.value.1;
      if left == [] {
        return Err(UnexpectedEnd);
      }
      if left[0] != WITNESS_FLAG {
        return Err(MalformedData);
      }
      inputs := ReadListLoop(left[1..], ReadInput);
      if inputs.Err? {
        return Err(inputs.error);
      }
      readWitness := true;
    }
    var outputs := ReadListLoop(inputs.value.1, ReadOutput);
    if outputs.Err? {
      return Err(outputs.error);
    }
    var filled, left := inputs.value.0, outputs.value.1;
    if readWitness {
      for i := 0 to |filled|
        invariant |filled| == |inputs.value.0|
        invariant ReadWitnesses(outputs.value.1, inputs.value.0, 0) == ReadWitnesses(left, filled, i)
      {
        var stack := ReadListLoop(left, ReadBlob);
        if stack.Err? {
          return Err(stack.error);
        }
        filled, left := filled[i := filled[i].(scriptWitness := stack.value.0)], stack.value.1;
      }
    }
    var lockTime := ReadU32(left);
    if lockTime.Err? {
      return Err(lockTime.error);
    }
    r := Ok((Transaction(version.value.0, filled, outputs.value.0, lockTime.value.0), lockTime.value.1));
  }

  // ---------------------------------------------------------------------------------------------
  // Round trips of the parts.

  /** Lengths fit the 64-bit counts of the format. */
  ghost predicate Short<T>(s: seq<T>) {
    |s| < 0x1_0000_0000_0000_0000
  }

  lemma {:induction false} ReversedTwice(s: seq<byte>)
    ensures Reversed(Reversed(s)) == s
  {
  }

  lemma {:induction false} HashReads(h: H256)
    ensures Reads(ReadHash, HashBytes(h), h)
  {
    hide Bytes, Pow256, Reversed;
    HashWidth();
    ValueOfBytes(h, 32);
    ReversedTwice(Bytes(h, 32));
    forall tail: seq<byte>
      ensures ReadHash(HashBytes(h) + tail) == Ok((h, tail))
    {
      SliceReads(HashBytes(h), tail);
    }
  }

  lemma {:induction false} OutPointReads(o: OutPoint)
    ensures Reads(ReadOutPoint, OutPointBytes(o), o)
  {
    hide Bytes, HashBytes, ReadHash, ReadU32;
    HashReads(o.hash);
    U32Reads(o.index);
    forall tail: seq<byte>
      ensures ReadOutPoint(OutPointBytes(o) + tail) == Ok((o, tail))
    {
      assert OutPointBytes(o) + tail == HashBytes(o.hash) + (Bytes(o.index, 4) + tail);
    }
  }

  function Cleared(i: TransactionInput): TransactionInput {
    i.(scriptWitness := [])
  }

  lemma {:induction false} InputReads(i: TransactionInput)
    requires Short(i.scriptSig)
    ensures Reads(ReadInput, InputBytes(i), Cleared(i))
  {
    hide Bytes, OutPointBytes, BlobBytes, ReadOutPoint, ReadBlob, ReadU32;
    OutPointReads(i.previousOutput);
    BlobReads(i.scriptSig);
    U32Reads(i.sequence);
    forall tail: seq<byte>
      ensures ReadInput(InputBytes(i) + tail) == Ok((Cleared(i), tail))
    {
      var last := Bytes(i.sequence, 4) + tail;
      assert InputBytes(i) + tail == OutPointBytes(i.previousOutput) + (BlobBytes(i.scriptSig) + last);
    }
  }

  lemma {:induction false} OutputReads(o: TransactionOutput)
    requires Short(o.scriptPubkey)
    ensures Reads(ReadOutput, OutputBytes(o), o)
  {
    hide Bytes, BlobBytes, ReadBlob, ReadU64;
    U64Reads(o.value);
    BlobReads(o.scriptPubkey);
    forall tail: seq<byte>
      ensures ReadOutput(OutputBytes(o) + tail) == Ok((o, tail))
    {
      assert OutputBytes(o) + tail == Bytes(o.value, 8) + (BlobBytes(o.scriptPubkey) + tail);
    }
  }

  lemma {:induction false} VersionReads(v: i32)
    ensures Reads(ReadVersion, VersionBytes(v), v)
  {
    hide Bytes, ReadU32;
    U32Reads(if v < 0 then v + 0x1_0000_0000 else v);
  }

  lemma {:induction false} StackReads(stack: seq<seq<byte>>, tail: seq<byte>)
    requires Short(stack) && forall i :: 0 <= i < |stack| ==> Short(stack[i])
    ensures ReadStack(StackBytes(stack) + tail) == Ok((stack, tail))
  {
    hide BlobBytes, ReadBlob, ListBytes, ReadList;
    forall i | 0 <= i < |stack|
      ensures Reads(ReadBlob, BlobBytes(stack[i]), stack[i])
    {
      BlobReads(stack[i]);
    }
    ListReads(stack, stack, BlobBytes, ReadBlob, tail);
  }

  // ---------------------------------------------------------------------------------------------
  // Round trips of transactions.

  ghost predicate EncodableInput(i: TransactionInput) {
    Short(i.scriptSig) && Short(i.scriptWitness) && forall k :: 0 <= k < |i.scriptWitness| ==> Short(i.scriptWitness[k])
  }

  ghost predicate Encodable(tx: Transaction) {
    Short(tx.inputs) && Short(tx.outputs) && (forall i :: 0 <= i < |tx.inputs| ==> EncodableInput(tx.inputs[i])) &&
    forall i :: 0 <= i < |tx.outputs| ==> Short(tx.outputs[i].scriptPubkey)
  }

  function ClearedInputs(inputs: seq<TransactionInput>): (r: seq<TransactionInput>)
    ensures |r| == |inputs|
  {
    seq(|inputs|, i requires 0 <= i < |inputs| => Cleared(inputs[i]))
  }

  function WithoutWitness(tx: Transaction): Transaction {
    tx.(inputs := ClearedInputs(tx.inputs))
  }

  lemma {:induction false} InputsRead(tx: Transaction, tail: seq<byte>)
    requires Encodable(tx)
    ensures ReadList(ListBytes(tx.inputs, InputBytes) + tail, ReadInput) == Ok((ClearedInputs(tx.inputs), tail))
  {
    hide InputBytes, ReadInput, ListBytes, ReadList;
    forall i | 0 <= i < |tx.inputs|
      ensures Reads(ReadInput, InputBytes(tx.inputs[i]), ClearedInputs(tx.inputs)[i])
    {
      assert EncodableInput(tx.inputs[i]);
      InputReads(tx.inputs[i]);
    }
    ListReads(tx.inputs, ClearedInputs(tx.inputs), InputBytes, ReadInput, tail);
  }

  lemma {:induction false} OutputsRead(tx: Transaction, tail: seq<byte>)
    requires Encodable(tx)
    ensures ReadList(ListBytes(tx.outputs, OutputBytes) + tail, ReadOutput) == Ok((tx.outputs, tail))
  {
    hide OutputBytes, ReadOutput, ListBytes, ReadList;
    forall i | 0 <= i < |tx.outputs|
      ensures Reads(ReadOutput, OutputBytes(tx.outputs[i]), tx.outputs[i])
    {
      OutputReads(tx.outputs[i]);
    }
    ListReads(tx.outputs, tx.outputs, OutputBytes, ReadOutput, tail);
  }

  /** Inputs whose witnesses are filled in up to `i`. */
  function Filled(inputs: seq<TransactionInput>, i: nat): seq<TransactionInput>
    requires i <= |inputs|
  {
    inputs[..i] + ClearedInputs(inputs[i..])
  }

  lemma {:induction false} WitnessesRead(inputs: seq<TransactionInput>, i: nat, tail: seq<byte>)
    requires i <= |inputs| && forall k :: 0 <= k < |inputs| ==> EncodableInput(inputs[k])
    ensures |Filled(inputs, i)| == |inputs|
    ensures ReadWitnesses(WitnessBytes(inputs[i..]) + tail, Filled(inputs, i), i) == Ok((inputs, tail))
    decreases |inputs| - i
  {
    hide StackBytes, ReadStack;
    var filled := Filled(inputs, i);
    if i == |inputs| {
      assert inputs[i..] == [] && filled == inputs;
      assert WitnessBytes([]) + tail == tail;
    } else {
      var stack := inputs[i].scriptWitness;
      var rest := WitnessBytes(inputs[i + 1..]) + tail;
      assert inputs[i..][1..] == inputs[i + 1..] && inputs[i..][0] == inputs[i];
      assert WitnessBytes(inputs[i..]) + tail == StackBytes(stack) + rest;
      assert EncodableInput(inputs[i]);
      StackReads(stack, rest);
      assert filled[i] == Cleared(inputs[i]);
      assert filled[i := filled[i].(scriptWitness := stack)] == Filled(inputs, i + 1);
      WitnessesRead(inputs, i + 1, tail);
    }
  }

  /** Without the marker the transaction comes back with its witnesses cleared. */
  lemma {:induction false} UnflaggedRoundTrip(tx: Transaction, tail: seq<byte>)
    requires Encodable(tx) && tx.inputs != []
    ensures ReadTransaction(TransactionBytes(tx, false) + tail) == Ok((WithoutWitness(tx), tail))
  {
    hide VersionBytes, ReadVersion, ListBytes, ReadList, Bytes, ReadU32, Encodable;
    var lock := Bytes(tx.lockTime, 4) + tail;
    var outputs := ListBytes(tx.outputs, OutputBytes) + lock;
    var inputs := ListBytes(tx.inputs, InputBytes) + outputs;
    assert TransactionBytes(tx, false) + tail == VersionBytes(tx.version) + inputs;
    VersionReads(tx.version);
    InputsRead(tx, outputs);
    OutputsRead(tx, lock);
    U32Reads(tx.lockTime);
  }

  /** With the marker the transaction comes back whole. A transaction without witnesses is written
      without the marker. */
  lemma {:induction false} FlaggedRoundTrip(tx: Transaction, tail: seq<byte>)
    requires Encodable(tx) && tx.inputs != []
    ensures ReadTransaction(TransactionBytes(tx, true) + tail) == Ok((tx, tail))
  {
    if tx.HasWitness() {
      WitnessRoundTrip(tx, tail);
    } else {
      UnflaggedRoundTrip(tx, tail);
      assert ClearedInputs(tx.inputs) == tx.inputs;
    }
  }

  lemma {:induction false} WitnessRoundTrip(tx: Transaction, tail: seq<byte>)
    requires Encodable(tx) && tx.HasWitness()
    ensures ReadTransaction(TransactionBytes(tx, true) + tail) == Ok((tx, tail))
  {
    hide VersionBytes, ReadVersion, ListBytes, ReadList, Bytes, ReadU32, WitnessBytes, ReadWitnesses, Transaction.HasWitness, ReadInputs;
    var lock := Bytes(tx.lockTime, 4) + tail;
    var stacks := WitnessBytes(tx.inputs) + lock;
    var outputs := ListBytes(tx.outputs, OutputBytes) + stacks;
    var inputs := ListBytes(tx.inputs, InputBytes) + outputs;
    assert TransactionBytes(tx, true) + tail == VersionBytes(tx.version) + ([WITNESS_MARKER, WITNESS_FLAG] + inputs);
    VersionReads(tx.version);
    MarkedInputsRead(tx, outputs);
    OutputsRead(tx, stacks);
    assert tx.inputs[0..] == tx.inputs && Filled(tx.inputs, 0) == ClearedInputs(tx.inputs);
    WitnessesRead(tx.inputs, 0, lock);
    U32Reads(tx.lockTime);
  }

  lemma {:induction false} MarkedInputsRead(tx: Transaction, tail: seq<byte>)
    requires Encodable(tx)
    ensures ReadInputs([WITNESS_MARKER, WITNESS_FLAG] + (ListBytes(tx.inputs, InputBytes) + tail)) == Ok(((ClearedInputs(tx.inputs), true), tail))
  {
    hide ListBytes, ReadItems;
    var inputs := ListBytes(tx.inputs, InputBytes) + tail;
    var all := [WITNESS_MARKER, WITNESS_FLAG] + inputs;
    assert all[0] == 0 && all[1..] == [WITNESS_FLAG] + inputs && all[1..][1..] == inputs;
    NoItems(all[1..]);
    InputsRead(tx, tail);
  }

  lemma {:induction false} NoItems(s: seq<byte>)
    ensures ReadItems(s, 0, ReadInput) == Ok(([], s))
  {
  }

  // ---------------------------------------------------------------------------------------------
  // Without inputs the format is ambiguous: the empty input list reads as the witness marker.

  /** Reading never consumes fewer bytes than writing the result would produce. */
  ghost predicate Consumes<T(!new)>(read: seq<byte> -> Parsed<T>, write: T -> seq<byte>) {
    forall s: seq<byte> :: read(s).Ok? ==> |s| - |read(s).value.1| >= |write(read(s).value.0)|
  }

  lemma {:induction false} ItemsConsume<T(!new)>(s: seq<byte>, n: nat, read: seq<byte> -> Parsed<T>, write: T -> seq<byte>)
    requires Consumes(read, write)
    ensures var r := ReadItems(s, n, read);
            r.Ok? ==> |r.value.0| == n && |s| - |r.value.1| >= |ItemsBytes(r.value.0, write)|
    decreases n
  {
    if n > 0 && read(s).Ok? {
      ItemsConsume(read(s).value.1, n - 1, read, write);
      var r := ReadItems(s, n, read);
      if r.Ok? {
        assert r.value.0[1..] == ReadItems(read(s).value.1, n - 1, read).value.0;
      }
    }
  }

  lemma {:induction false} ListConsumes<T(!new)>(s: seq<byte>, read: seq<byte> -> Parsed<T>, write: T -> seq<byte>)
    requires Consumes(read, write)
    ensures var r := ReadList(s, read); r.Ok? ==> |s| - |r.value.1| >= |ListBytes(r.value.0, write)|
  {
    hide ReadCompact, CompactBytes, ReadItems, ItemsBytes;
    CompactIsShortest(s);
    var n := ReadCompact(s);
    if n.Ok? {
      ItemsConsume(n.value.1, n.value.0, read, write);
    }
  }

  lemma {:induction false} OutputsConsume()
    ensures Consumes(ReadOutput, OutputBytes)
  {
    hide ReadCompact, CompactBytes;
    forall s: seq<byte>
      ensures ReadOutput(s).Ok? ==> |s| - |ReadOutput(s).value.1| >= |OutputBytes(ReadOutput(s).value.0)|
    {
      var value := ReadU64(s);
      if value.Ok? {
        CompactIsShortest(value.value.1);
      }
    }
  }

  /** A list read from a stream takes at least its count. */
  lemma {:induction false} InputsConsume(s: seq<byte>)
    ensures var r := ReadInputs(s); r.Ok? && r.value.0.0 == [] ==> r.value.0.1 && |s| - |r.value.1| >= 3
  {
    hide ReadCompact, ReadInput;
    CompactIsShortest(s);
    var first := ReadList(s, ReadInput);
    if first.Ok? && first.value.0 == [] && first.value.1 != [] {
      CompactIsShortest(first.value.1[1..]);
    }
  }

  lemma {:induction false} EmptyListSize()
    ensures |ListBytes([], InputBytes)| == 1
  {
  }

  /** What is read without inputs took more bytes than writing it produces. */
  lemma {:induction false} EmptyInputsCost(s: seq<byte>)
    ensures var r := ReadTransaction(s);
            r.Ok? && r.value.0.inputs == [] ==> |s| - |r.value.1| > |TransactionBytes(r.value.0, true)|
  {
    hide ReadList, ReadInputs, ListBytes, Bytes;
    EmptyListSize();
    var version := ReadVersion(s);
    if version.Ok? {
      var inputs := ReadInputs(version.value.1);
      InputsConsume(version.value.1);
      if inputs.Ok? {
        OutputsConsume();
        ListConsumes(inputs.value.1, ReadOutput, OutputBytes);
      }
    }
  }

  /** The round trip holds exactly for the transactions that have an input. */
  lemma {:induction false} RoundTripIffInputs(tx: Transaction, tail: seq<byte>)
    requires Encodable(tx)
    ensures ReadTransaction(TransactionBytes(tx, true) + tail) == Ok((tx, tail)) <==> tx.inputs != []
  {
    hide ReadTransaction, TransactionBytes;
    if tx.inputs != [] {
      FlaggedRoundTrip(tx, tail);
    } else {
      EmptyInputsCost(TransactionBytes(tx, true) + tail);
    }
  }

  // ---------------------------------------------------------------------------------------------
  // Whole buffers.

  /** `deserialize`: the buffer must hold one transaction and nothing more. */
  function Deserialize(s: seq<byte>): Result<Transaction, ReadError> {
    var p :- ReadTransaction(s);
    if p.1 == [] then Ok(p.0) else Err(UnreadData)
  }

  lemma {:induction false} DeserializeExact(tx: Transaction, tail: seq<byte>)
    requires Encodable(tx) && tx.inputs != []
    ensures Deserialize(TransactionBytes(tx, true) + tail) == if tail == [] then Ok(tx) else Err(UnreadData)
  {
    hide ReadTransaction, TransactionBytes;
    FlaggedRoundTrip(tx, tail);
  }

  /** No serialization is the beginning of another one. */
  lemma {:induction false} PrefixFree(a: Transaction, b: Transaction, x: seq<byte>, y: seq<byte>)
    requires Encodable(a) && Encodable(b) && a.inputs != [] && b.inputs != []
    ensures TransactionBytes(a, true) + x == TransactionBytes(b, true) + y ==> a == b && x == y
  {
    hide ReadTransaction, TransactionBytes;
    FlaggedRoundTrip(a, x);
    FlaggedRoundTrip(b, y);
  }
}
