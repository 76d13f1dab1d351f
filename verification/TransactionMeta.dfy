/** Per-transaction record of the canonical index (storage/src/transaction_meta.rs). */
module TransactionMetas {
  import opened Primitives

  /** Bit 0 says whether the transaction is a coinbase; bit `i + 1` says whether output `i` is spent. */
  datatype TransactionMeta = TransactionMeta(blockHeight: nat, bits: seq<bool>) {

    /** `BitVec::set` aborts outside the vector, which `None` stands for. */
    function Denote(index: nat, used: bool): Option<TransactionMeta> {
      if index + 1 < |bits| then Some(this.(bits := bits[index + 1 := used])) else None
    }

    function IsSpent(index: nat): Option<bool> {
      if index + 1 < |bits| then Some(bits[index + 1]) else None
    }
  }

  function New(height: nat, outputs: nat): TransactionMeta {
    TransactionMeta(height, seq(outputs + 1, _ => false))
  }

  function NewCoinbase(height: nat, outputs: nat): TransactionMeta {
    TransactionMeta(height, New(height, outputs).bits[0 := true])
  }
}
