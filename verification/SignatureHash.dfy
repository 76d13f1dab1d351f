/** The version 0 witness signature hash (BIP 143): what it commits to (script/src/sign.rs). */
module SignatureHashes {
  import opened Primitives
  import opened Chain
  import opened LittleEndian
  import opened Serialization
  import opened TransactionCodec
  import opened Signatures

  datatype UnsignedInput = UnsignedInput(previousOutput: OutPoint, sequence: u32)

  datatype Signer = Signer(version: i32, inputs: seq<UnsignedInput>, outputs: seq<TransactionOutput>, lockTime: u32)

  /** Everything a signature hash is computed from. */
  datatype Message = Message(signer: Signer, index: nat, amount: u64, code: seq<byte>, hashType: u32)

  /** The source indexes the inputs with `index`; lengths fit the 64-bit counts of the format. */
  ghost predicate Valid(m: Message) {
    m.index < |m.signer.inputs| && Short(m.code) &&
    forall i :: 0 <= i < |m.signer.outputs| ==> Short(m.signer.outputs[i].scriptPubkey)
  }

  function Type(m: Message): Sighash {
    FromU32(WitnessV0, m.hashType)
  }

  // ---------------------------------------------------------------------------------------------
  // The hash.

  function PrevoutBytes(i: UnsignedInput): seq<byte> {
    OutPointBytes(i.previousOutput)
  }

  function SequenceBytes(i: UnsignedInput): seq<byte> {
    Bytes(i.sequence, 4)
  }

  /** The streams that are hashed on their own. */
  function PrevoutsStream(m: Message): Option<seq<byte>> {
    if Type(m).anyoneCanPay then None else Some(ItemsBytes(m.signer.inputs, PrevoutBytes))
  }

  function SequenceStream(m: Message): Option<seq<byte>> {
    if Type(m).base == SignAll && !Type(m).anyoneCanPay then Some(ItemsBytes(m.signer.inputs, SequenceBytes)) else None
  }

  function OutputsStream(m: Message): Option<seq<byte>> {
    match Type(m).base
    case SignAll => Some(ItemsBytes(m.signer.outputs, OutputBytes))
    case SignSingle => if m.index < |m.signer.outputs| then Some(OutputBytes(m.signer.outputs[m.index])) else None
    case SignNone => None
  }

  function StreamHash(dhash: seq<byte> -> H256, stream: Option<seq<byte>>): H256 {
    if stream.Some? then dhash(stream.value) else ZERO_HASH
  }

  function Preimage(dhash: seq<byte> -> H256, m: Message): seq<byte>
    requires m.index < |m.signer.inputs|
  {
    var input := m.signer.inputs[m.index];
    VersionBytes(m.signer.version) + (HashBytes(StreamHash(dhash, PrevoutsStream(m))) + (HashBytes(StreamHash(dhash, SequenceStream(m))) +
    (OutPointBytes(input.previousOutput) + (BlobBytes(m.code) + (Bytes(m.amount, 8) + (Bytes(input.sequence, 4) +
    (HashBytes(StreamHash(dhash, OutputsStream(m))) + (Bytes(m.signer.lockTime, 4) + Bytes(m.hashType, 4)))))))))
  }

  function SignatureHash(dhash: seq<byte> -> H256, m: Message): H256
    requires m.index < |m.signer.inputs|
  {
    dhash(Preimage(dhash, m))
  }

  /** The byte one, stored first. */
  const ONE_HASH: H256 := 0x0100000000000000_0000000000000000_0000000000000000_0000000000000000

  predicate OutOfRange(m: Message) {
    m.index >= |m.signer.inputs| || (Type(m).base == SignSingle && m.index >= |m.signer.outputs|)
  }

  /** `signature_hash_fork_id`: outside the range of inputs or of single outputs the hash is the number one. */
  function ForkIdHash(dhash: seq<byte> -> H256, m: Message): H256 {
    if OutOfRange(m) then ONE_HASH else SignatureHash(dhash, m)
  }

  // ---------------------------------------------------------------------------------------------
  // The fields a hash type commits to.

  datatype OutputScope = AllOutputs(outputs: seq<TransactionOutput>) | OneOutput(output: TransactionOutput) | NoOutputs

  datatype Commitment = Commitment(
    version: i32,
    prevouts: Option<seq<OutPoint>>,
    sequences: Option<seq<u32>>,
    prevout: OutPoint,
    code: seq<byte>,
    amount: u64,
    sequence: u32,
    outputs: OutputScope,
    lockTime: u32,
    hashType: u32)

  function Prevouts(inputs: seq<UnsignedInput>): seq<OutPoint> {
    seq(|inputs|, i requires 0 <= i < |inputs| => inputs[i].previousOutput)
  }

  function Sequences(inputs: seq<UnsignedInput>): seq<u32> {
    seq(|inputs|, i requires 0 <= i < |inputs| => inputs[i].sequence)
  }

  function Committed(m: Message): Commitment
    requires m.index < |m.signer.inputs|
  {
    var s, t, input := m.signer, Type(m), m.signer.inputs[m.index];
    Commitment(
      s.version,
      if t.anyoneCanPay then None else Some(Prevouts(s.inputs)),
      if t.anyoneCanPay || t.base != SignAll then None else Some(Sequences(s.inputs)),
      input.previousOutput, m.code, m.amount, input.sequence,
      match t.base
      case SignAll => AllOutputs(s.outputs)
      case SignSingle => if m.index < |s.outputs| then OneOutput(s.outputs[m.index]) else NoOutputs
      case SignNone => NoOutputs,
      s.lockTime, m.hashType)
  }

  // ---------------------------------------------------------------------------------------------
  // Self-delimiting parts.

  /** If two streams start with parts that read back, equal streams have equal parts and equal rests. */
  lemma {:induction false} Peel<T(!new)>(p: seq<byte> -> Parsed<T>, a: seq<byte>, u: T, x: seq<byte>, b: seq<byte>, v: T, y: seq<byte>)
    requires Reads(p, a, u) && Reads(p, b, v) && a + x == b + y
    ensures u == v && x == y
  {
  }

  lemma {:induction false} ItemsInjective<T(!new)>(xs: seq<T>, ys: seq<T>, write: T -> seq<byte>, read: seq<byte> -> Parsed<T>)
    requires forall i :: 0 <= i < |xs| ==> Reads(read, write(xs[i]), xs[i]) && write(xs[i]) != []
    requires forall i :: 0 <= i < |ys| ==> Reads(read, write(ys[i]), ys[i]) && write(ys[i]) != []
    requires ItemsBytes(xs, write) == ItemsBytes(ys, write)
    ensures xs == ys
    decreases |xs|
  {
    if xs != [] && ys != [] {
      Peel(read, write(xs[0]), xs[0], ItemsBytes(xs[1..], write), write(ys[0]), ys[0], ItemsBytes(ys[1..], write));
      ItemsInjective(xs[1..], ys[1..], write, read);
      assert xs == [xs[0]] + xs[1..] && ys == [ys[0]] + ys[1..];
    }
  }

  lemma {:induction false} PrevoutsOf(inputs: seq<UnsignedInput>)
    ensures ItemsBytes(inputs, PrevoutBytes) == ItemsBytes(Prevouts(inputs), OutPointBytes)
    decreases |inputs|
  {
    hide OutPointBytes;
    if inputs != [] {
      PrevoutsOf(inputs[1..]);
      assert Prevouts(inputs)[1..] == Prevouts(inputs[1..]);
    }
  }

  function SequenceNumberBytes(n: u32): seq<byte> {
    Bytes(n, 4)
  }

  lemma {:induction false} SequencesOf(inputs: seq<UnsignedInput>)
    ensures ItemsBytes(inputs, SequenceBytes) == ItemsBytes(Sequences(inputs), SequenceNumberBytes)
    decreases |inputs|
  {
    hide Bytes;
    if inputs != [] {
      SequencesOf(inputs[1..]);
      assert Sequences(inputs)[1..] == Sequences(inputs[1..]);
    }
  }

  lemma {:induction false} PrevoutsInjective(xs: seq<OutPoint>, ys: seq<OutPoint>)
    requires ItemsBytes(xs, OutPointBytes) == ItemsBytes(ys, OutPointBytes)
    ensures xs == ys
  {
    hide ReadOutPoint, Reads;
    forall o: OutPoint
      ensures Reads(ReadOutPoint, OutPointBytes(o), o)
    {
      OutPointReads(o);
    }
    ItemsInjective(xs, ys, OutPointBytes, ReadOutPoint);
  }

  lemma {:induction false} SequencesInjective(xs: seq<u32>, ys: seq<u32>)
    requires ItemsBytes(xs, SequenceNumberBytes) == ItemsBytes(ys, SequenceNumberBytes)
    ensures xs == ys
  {
    hide ReadU32, Reads;
    forall n: u32
      ensures Reads(ReadU32, SequenceNumberBytes(n), n)
    {
      U32Reads(n);
    }
    ItemsInjective(xs, ys, SequenceNumberBytes, ReadU32);
  }

  lemma {:induction false} OutputsInjective(xs: seq<TransactionOutput>, ys: seq<TransactionOutput>)
    requires forall i :: 0 <= i < |xs| ==> Short(xs[i].scriptPubkey)
    requires forall i :: 0 <= i < |ys| ==> Short(ys[i].scriptPubkey)
    requires ItemsBytes(xs, OutputBytes) == ItemsBytes(ys, OutputBytes)
    ensures xs == ys
  {
    hide ReadOutput, Reads, BlobBytes;
    forall o: TransactionOutput | Short(o.scriptPubkey)
      ensures Reads(ReadOutput, OutputBytes(o), o)
    {
      OutputReads(o);
    }
    ItemsInjective(xs, ys, OutputBytes, ReadOutput);
  }

  // ---------------------------------------------------------------------------------------------
  // Binding.

  /** The strings that are hashed on the way to a signature hash. */
  function HashedStrings(dhash: seq<byte> -> H256, m: Message): set<seq<byte>>
    requires m.index < |m.signer.inputs|
  {
    {Preimage(dhash, m)} + StreamSet(PrevoutsStream(m)) + StreamSet(SequenceStream(m)) + StreamSet(OutputsStream(m))
  }

  function StreamSet(stream: Option<seq<byte>>): set<seq<byte>> {
    if stream.Some? then {stream.value} else {}
  }

  /** No two of the given strings have the same hash, and none has hash zero. */
  ghost predicate NoCollisions(dhash: seq<byte> -> H256, strings: set<seq<byte>>) {
    (forall x, y :: x in strings && y in strings && dhash(x) == dhash(y) ==> x == y) &&
    forall x :: x in strings ==> dhash(x) != ZERO_HASH
  }

  lemma {:induction false} StreamsBind(dhash: seq<byte> -> H256, strings: set<seq<byte>>, x: Option<seq<byte>>, y: Option<seq<byte>>)
    requires NoCollisions(dhash, strings) && StreamSet(x) <= strings && StreamSet(y) <= strings
    requires StreamHash(dhash, x) == StreamHash(dhash, y)
    ensures x == y
  {
  }

  /** Equal preimages have equal fields. */
  lemma {:induction false} PreimageFields(dhash: seq<byte> -> H256, a: Message, b: Message)
    requires Valid(a) && Valid(b) && Preimage(dhash, a) == Preimage(dhash, b)
    ensures a.signer.version == b.signer.version && a.code == b.code && a.amount == b.amount
    ensures a.signer.lockTime == b.signer.lockTime && a.hashType == b.hashType
    ensures a.signer.inputs[a.index] == b.signer.inputs[b.index]
    ensures StreamHash(dhash, PrevoutsStream(a)) == StreamHash(dhash, PrevoutsStream(b))
    ensures StreamHash(dhash, SequenceStream(a)) == StreamHash(dhash, SequenceStream(b))
    ensures StreamHash(dhash, OutputsStream(a)) == StreamHash(dhash, OutputsStream(b))
  {
    hide VersionBytes, HashBytes, OutPointBytes, BlobBytes, Bytes, Reads, StreamHash, PrevoutsStream, SequenceStream, OutputsStream;
    var i, j := a.signer.inputs[a.index], b.signer.inputs[b.index];
    var p, q, r := StreamHash(dhash, PrevoutsStream(a)), StreamHash(dhash, SequenceStream(a)), StreamHash(dhash, OutputsStream(a));
    var s, t, u := StreamHash(dhash, PrevoutsStream(b)), StreamHash(dhash, SequenceStream(b)), StreamHash(dhash, OutputsStream(b));
    var a9, b9 := Bytes(a.signer.lockTime, 4) + Bytes(a.hashType, 4), Bytes(b.signer.lockTime, 4) + Bytes(b.hashType, 4);
    var a8, b8 := HashBytes(r) + a9, HashBytes(u) + b9;
    var a7, b7 := Bytes(i.sequence, 4) + a8, Bytes(j.sequence, 4) + b8;
    var a6, b6 := Bytes(a.amount, 8) + a7, Bytes(b.amount, 8) + b7;
    var a5, b5 := BlobBytes(a.code) + a6, BlobBytes(b.code) + b6;
    var a4, b4 := OutPointBytes(i.previousOutput) + a5, OutPointBytes(j.previousOutput) + b5;
    var a3, b3 := HashBytes(q) + a4, HashBytes(t) + b4;
    var a2, b2 := HashBytes(p) + a3, HashBytes(s) + b3;
    PeelVersion(a.signer.version, a2, b.signer.version, b2);
    PeelHash(p, a3, s, b3);
    PeelHash(q, a4, t, b4);
    PeelOutPoint(i.previousOutput, a5, j.previousOutput, b5);
    PeelBlob(a.code, a6, b.code, b6);
    PeelAmount(a.amount, a7, b.amount, b7);
    PeelU32(i.sequence, a8, j.sequence, b8);
    PeelHash(r, a9, u, b9);
    PeelU32(a.signer.lockTime, Bytes(a.hashType, 4), b.signer.lockTime, Bytes(b.hashType, 4));
    assert Bytes(a.hashType, 4) == Bytes(a.hashType, 4) + [] && Bytes(b.hashType, 4) == Bytes(b.hashType, 4) + [];
    PeelU32(a.hashType, [], b.hashType, []);
  }

  lemma {:induction false} PeelVersion(u: i32, x: seq<byte>, v: i32, y: seq<byte>)
    requires VersionBytes(u) + x == VersionBytes(v) + y
    ensures u == v && x == y
  {
    VersionReads(u);
    VersionReads(v);
    Peel(ReadVersion, VersionBytes(u), u, x, VersionBytes(v), v, y);
  }

  lemma {:induction false} PeelHash(u: H256, x: seq<byte>, v: H256, y: seq<byte>)
    requires HashBytes(u) + x == HashBytes(v) + y
    ensures u == v && x == y
  {
    HashReads(u);
    HashReads(v);
    Peel(ReadHash, HashBytes(u), u, x, HashBytes(v), v, y);
  }

  lemma {:induction false} PeelOutPoint(u: OutPoint, x: seq<byte>, v: OutPoint, y: seq<byte>)
    requires OutPointBytes(u) + x == OutPointBytes(v) + y
    ensures u == v && x == y
  {
    OutPointReads(u);
    OutPointReads(v);
    Peel(ReadOutPoint, OutPointBytes(u), u, x, OutPointBytes(v), v, y);
  }

  lemma {:induction false} PeelBlob(u: seq<byte>, x: seq<byte>, v: seq<byte>, y: seq<byte>)
    requires Short(u) && Short(v) && BlobBytes(u) + x == BlobBytes(v) + y
    ensures u == v && x == y
  {
    BlobReads(u);
    BlobReads(v);
    Peel(ReadBlob, BlobBytes(u), u, x, BlobBytes(v), v, y);
  }

  lemma {:induction false} PeelAmount(u: u64, x: seq<byte>, v: u64, y: seq<byte>)
    requires Bytes(u, 8) + x == Bytes(v, 8) + y
    ensures u == v && x == y
  {
    U64Reads(u);
    U64Reads(v);
    Peel(ReadU64, Bytes(u, 8), u, x, Bytes(v, 8), v, y);
  }

  lemma {:induction false} PeelU32(u: u32, x: seq<byte>, v: u32, y: seq<byte>)
    requires Bytes(u, 4) + x == Bytes(v, 4) + y
    ensures u == v && x == y
  {
    U32Reads(u);
    U32Reads(v);
    Peel(ReadU32, Bytes(u, 4), u, x, Bytes(v, 4), v, y);
  }

  /** Equal streams under one hash type commit to the same fields, and the other way round. */
  lemma {:induction false} StreamsCommit(a: Message, b: Message)
    requires Valid(a) && Valid(b) && a.hashType == b.hashType
    ensures PrevoutsStream(a) == PrevoutsStream(b) <==> Committed(a).prevouts == Committed(b).prevouts
    ensures SequenceStream(a) == SequenceStream(b) <==> Committed(a).sequences == Committed(b).sequences
  {
    hide ItemsBytes, OutPointBytes, PrevoutBytes, SequenceBytes, SequenceNumberBytes;
    var xs, ys := a.signer.inputs, b.signer.inputs;
    PrevoutsOf(xs);
    PrevoutsOf(ys);
    SequencesOf(xs);
    SequencesOf(ys);
    if ItemsBytes(xs, PrevoutBytes) == ItemsBytes(ys, PrevoutBytes) {
      PrevoutsInjective(Prevouts(xs), Prevouts(ys));
    }
    if ItemsBytes(xs, SequenceBytes) == ItemsBytes(ys, SequenceBytes) {
      SequencesInjective(Sequences(xs), Sequences(ys));
    }
  }

  lemma {:induction false} OutputsCommit(a: Message, b: Message)
    requires Valid(a) && Valid(b) && a.hashType == b.hashType
    ensures OutputsStream(a) == OutputsStream(b) <==> Committed(a).outputs == Committed(b).outputs
  {
    hide ItemsBytes, OutputBytes;
    var xs, ys := a.signer.outputs, b.signer.outputs;
    if ItemsBytes(xs, OutputBytes) == ItemsBytes(ys, OutputBytes) {
      OutputsInjective(xs, ys);
    }
    if Type(a).base == SignSingle && a.index < |xs| && b.index < |ys| {
      var x, y := xs[a.index], ys[b.index];
      if OutputBytes(x) == OutputBytes(y) {
        OutputReads(x);
        OutputReads(y);
        assert OutputBytes(x) + [] == OutputBytes(y) + [];
        Peel(ReadOutput, OutputBytes(x), x, [], OutputBytes(y), y, []);
      }
    }
  }

  /** Two signature hashes agree exactly when the fields their hash types commit to agree, provided the
      strings hashed for the two have no collision among them and none hashes to zero. */
  lemma {:induction false} HashBindsCommitment(dhash: seq<byte> -> H256, a: Message, b: Message)
    requires Valid(a) && Valid(b)
    ensures NoCollisions(dhash, HashedStrings(dhash, a) + HashedStrings(dhash, b)) ==>
              (SignatureHash(dhash, a) == SignatureHash(dhash, b) <==> Committed(a) == Committed(b))
  {
    hide Preimage, PrevoutsStream, SequenceStream, OutputsStream, StreamHash, NoCollisions, Committed;
    EqualHashes(dhash, a, b);
    if Committed(a) == Committed(b) {
      EqualCommitments(dhash, a, b);
    }
  }

  lemma {:induction false} EqualHashes(dhash: seq<byte> -> H256, a: Message, b: Message)
    requires Valid(a) && Valid(b)
    ensures NoCollisions(dhash, HashedStrings(dhash, a) + HashedStrings(dhash, b)) && SignatureHash(dhash, a) == SignatureHash(dhash, b) ==>
              Committed(a) == Committed(b)
  {
    hide Preimage, PrevoutsStream, SequenceStream, OutputsStream, StreamHash;
    var strings := HashedStrings(dhash, a) + HashedStrings(dhash, b);
    if !NoCollisions(dhash, strings) || SignatureHash(dhash, a) != SignatureHash(dhash, b) {
      return;
    }
    assert Preimage(dhash, a) in strings && Preimage(dhash, b) in strings;
    PreimageFields(dhash, a, b);
    StreamsBind(dhash, strings, PrevoutsStream(a), PrevoutsStream(b));
    StreamsBind(dhash, strings, SequenceStream(a), SequenceStream(b));
    StreamsBind(dhash, strings, OutputsStream(a), OutputsStream(b));
    StreamsCommit(a, b);
    OutputsCommit(a, b);
  }

  /** Agreement on the committed fields alone forces equal hashes, for any hash function. */
  lemma {:induction false} EqualCommitments(dhash: seq<byte> -> H256, a: Message, b: Message)
    requires Valid(a) && Valid(b) && Committed(a) == Committed(b)
    ensures SignatureHash(dhash, a) == SignatureHash(dhash, b)
  {
    hide PrevoutsStream, SequenceStream, OutputsStream, StreamHash, VersionBytes, HashBytes, OutPointBytes, BlobBytes, Bytes;
    StreamsCommit(a, b);
    OutputsCommit(a, b);
  }

  /** The fork's hash binds the same fields within range, and nothing at all outside it. */
  lemma {:induction false} ForkIdHashBinds(dhash: seq<byte> -> H256, a: Message, b: Message)
    requires Valid(a) && Valid(b)
    ensures OutOfRange(a) && OutOfRange(b) ==> ForkIdHash(dhash, a) == ForkIdHash(dhash, b)
    ensures !OutOfRange(a) && !OutOfRange(b) && NoCollisions(dhash, HashedStrings(dhash, a) + HashedStrings(dhash, b)) ==>
            (ForkIdHash(dhash, a) == ForkIdHash(dhash, b) <==> Committed(a) == Committed(b))
  {
    hide Preimage, NoCollisions, Committed, SignatureHash, HashedStrings;
    HashBindsCommitment(dhash, a, b);
  }
}
