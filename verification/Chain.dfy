/** Transactions, headers and blocks (chain/src). */
module Chain {
  import opened Primitives

  const SEQUENCE_FINAL: u32 := 0xffff_ffff

  datatype OutPoint = OutPoint(hash: H256, index: u32)

  datatype TransactionInput = TransactionInput(
    previousOutput: OutPoint,
    scriptSig: seq<byte>,
    sequence: u32,
    scriptWitness: seq<seq<byte>>)

  datatype TransactionOutput = TransactionOutput(value: u64, scriptPubkey: seq<byte>)

  datatype Transaction = Transaction(
    version: i32,
    inputs: seq<TransactionInput>,
    outputs: seq<TransactionOutput>,
    lockTime: u32)
  {
    /** Lock time zero, or every input opts out of lock time. */
    predicate IsFinal() {
      lockTime == 0 || forall i :: 0 <= i < |inputs| ==> inputs[i].sequence == SEQUENCE_FINAL
    }

    predicate HasWitness() {
      exists i :: 0 <= i < |inputs| && inputs[i].scriptWitness != []
    }

    /** The transaction input `k` spends from. */
    predicate Spends(o: OutPoint) {
      exists k :: 0 <= k < |inputs| && inputs[k].previousOutput == o
    }
  }

  /** A transaction kept next to its hash. */
  datatype IndexedTransaction = IndexedTransaction(hash: H256, raw: Transaction)

  /** Only the parent link matters to the chain store; the other header fields are carried along unread. */
  datatype BlockHeader = BlockHeader(previousHeaderHash: H256, rest: seq<byte>)

  datatype IndexedBlock = IndexedBlock(hash: H256, header: BlockHeader, transactions: seq<IndexedTransaction>)
}
