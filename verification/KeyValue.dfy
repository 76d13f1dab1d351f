/** The key/value columns behind the chain store and the updates written to them (db/src/kv). */
module KeyValue {
  import opened Primitives
  import opened Chain
  import opened TransactionMetas

  type Metas = map<H256, TransactionMeta>

  datatype Columns = Columns(
    bestNumber: Option<nat>,
    bestHash: Option<H256>,
    blockHash: map<nat, H256>,
    blockHeader: map<H256, BlockHeader>,
    blockTransactions: map<H256, seq<H256>>,
    transaction: map<H256, Transaction>,
    transactionMeta: Metas,
    blockNumber: map<H256, nat>)

  const EMPTY: Columns := Columns(None, None, map[], map[], map[], map[], map[], map[])

  datatype Operation =
    | InsertBestNumber(number: nat)
    | InsertBestHash(hash: H256)
    | InsertBlockHash(number: nat, hash: H256)
    | InsertBlockHeader(hash: H256, header: BlockHeader)
    | InsertBlockTransactions(hash: H256, list: seq<H256>)
    | InsertTransaction(hash: H256, tx: Transaction)
    | InsertTransactionMeta(hash: H256, meta: TransactionMeta)
    | InsertBlockNumber(hash: H256, number: nat)
    | DeleteBlockHash(number: nat)
    | DeleteBlockHeader(hash: H256)
    | DeleteBlockTransactions(hash: H256)
    | DeleteTransaction(hash: H256)
    | DeleteTransactionMeta(hash: H256)
    | DeleteBlockNumber(hash: H256)

  function Apply(db: Columns, op: Operation): Columns {
    match op
    case InsertBestNumber(n) => db.(bestNumber := Some(n))
    case InsertBestHash(h) => db.(bestHash := Some(h))
    case InsertBlockHash(n, h) => db.(blockHash := db.blockHash[n := h])
    case InsertBlockHeader(h, header) => db.(blockHeader := db.blockHeader[h := header])
    case InsertBlockTransactions(h, list) => db.(blockTransactions := db.blockTransactions[h := list])
    case InsertTransaction(h, tx) => db.(transaction := db.transaction[h := tx])
    case InsertTransactionMeta(h, meta) => db.(transactionMeta := db.transactionMeta[h := meta])
    case InsertBlockNumber(h, n) => db.(blockNumber := db.blockNumber[h := n])
    case DeleteBlockHash(n) => db.(blockHash := db.blockHash - {n})
    case DeleteBlockHeader(h) => db.(blockHeader := db.blockHeader - {h})
    case DeleteBlockTransactions(h) => db.(blockTransactions := db.blockTransactions - {h})
    case DeleteTransaction(h) => db.(transaction := db.transaction - {h})
    case DeleteTransactionMeta(h) => db.(transactionMeta := db.transactionMeta - {h})
    case DeleteBlockNumber(h) => db.(blockNumber := db.blockNumber - {h})
  }

  /** An update is applied in order, so the last write to a key wins. */
  function ApplyAll(db: Columns, update: seq<Operation>): Columns {
    if update == [] then db else Apply(ApplyAll(db, update[..|update| - 1]), update[|update| - 1])
  }

  lemma {:induction false} ApplyAllSnoc(db: Columns, update: seq<Operation>, op: Operation)
    ensures ApplyAll(db, update + [op]) == Apply(ApplyAll(db, update), op)
  {
  }

  lemma {:induction false} ApplyAllConcat(db: Columns, first: seq<Operation>, second: seq<Operation>)
    ensures ApplyAll(db, first + second) == ApplyAll(ApplyAll(db, first), second)
  {
    if second == [] {
      assert first + second == first;
    } else {
      var n := |second| - 1;
      assert first + second == (first + second[..n]) + [second[n]];
      ApplyAllConcat(db, first, second[..n]);
      ApplyAllSnoc(db, first + second[..n], second[n]);
    }
  }
}

/** An overlay keeps the last operation on each key it was told to write and reads through to the
    database below for all others (db/src/kv/overlaydb.rs, db/src/kv/memorydb.rs). */
module Overlay {
  import opened Primitives
  import opened Chain
  import opened TransactionMetas
  import opened KeyValue

  datatype Key =
    | BestNumberKey
    | BestHashKey
    | BlockHashKey(number: nat)
    | BlockHeaderKey(hash: H256)
    | BlockTransactionsKey(hash: H256)
    | TransactionKey(hash: H256)
    | TransactionMetaKey(hash: H256)
    | BlockNumberKey(hash: H256)

  datatype Value =
    | NumberValue(number: nat)
    | HashValue(hash: H256)
    | HeaderValue(header: BlockHeader)
    | ListValue(list: seq<H256>)
    | TransactionValue(tx: Transaction)
    | MetaValue(meta: TransactionMeta)

  function KeyOf(op: Operation): Key {
    match op
    case InsertBestNumber(_) => BestNumberKey
    case InsertBestHash(_) => BestHashKey
    case InsertBlockHash(n, _) => BlockHashKey(n)
    case InsertBlockHeader(h, _) => BlockHeaderKey(h)
    case InsertBlockTransactions(h, _) => BlockTransactionsKey(h)
    case InsertTransaction(h, _) => TransactionKey(h)
    case InsertTransactionMeta(h, _) => TransactionMetaKey(h)
    case InsertBlockNumber(h, _) => BlockNumberKey(h)
    case DeleteBlockHash(n) => BlockHashKey(n)
    case DeleteBlockHeader(h) => BlockHeaderKey(h)
    case DeleteBlockTransactions(h) => BlockTransactionsKey(h)
    case DeleteTransaction(h) => TransactionKey(h)
    case DeleteTransactionMeta(h) => TransactionMetaKey(h)
    case DeleteBlockNumber(h) => BlockNumberKey(h)
  }

  /** What the operation's key reads as afterwards. */
  function Effect(op: Operation): Option<Value> {
    match op
    case InsertBestNumber(n) => Some(NumberValue(n))
    case InsertBestHash(h) => Some(HashValue(h))
    case InsertBlockHash(_, h) => Some(HashValue(h))
    case InsertBlockHeader(_, header) => Some(HeaderValue(header))
    case InsertBlockTransactions(_, list) => Some(ListValue(list))
    case InsertTransaction(_, tx) => Some(TransactionValue(tx))
    case InsertTransactionMeta(_, meta) => Some(MetaValue(meta))
    case InsertBlockNumber(_, n) => Some(NumberValue(n))
    case _ => None
  }

  function Read(db: Columns, k: Key): Option<Value> {
    match k
    case BestNumberKey => if db.bestNumber.Some? then Some(NumberValue(db.bestNumber.value)) else None
    case BestHashKey => if db.bestHash.Some? then Some(HashValue(db.bestHash.value)) else None
    case BlockHashKey(n) => if n in db.blockHash then Some(HashValue(db.blockHash[n])) else None
    case BlockHeaderKey(h) => if h in db.blockHeader then Some(HeaderValue(db.blockHeader[h])) else None
    case BlockTransactionsKey(h) => if h in db.blockTransactions then Some(ListValue(db.blockTransactions[h])) else None
    case TransactionKey(h) => if h in db.transaction then Some(TransactionValue(db.transaction[h])) else None
    case TransactionMetaKey(h) => if h in db.transactionMeta then Some(MetaValue(db.transactionMeta[h])) else None
    case BlockNumberKey(h) => if h in db.blockNumber then Some(NumberValue(db.blockNumber[h])) else None
  }

  lemma {:induction false} ReadApply(db: Columns, op: Operation, k: Key)
    ensures Read(Apply(db, op), k) == if KeyOf(op) == k then Effect(op) else Read(db, k)
  {
  }

  /** Columns that read the same are the same. */
  lemma {:induction false} ReadsDetermine(db: Columns, db': Columns)
    requires forall k :: Read(db, k) == Read(db', k)
    ensures db == db'
  {
    assert Read(db, BestNumberKey) == Read(db', BestNumberKey) && Read(db, BestHashKey) == Read(db', BestHashKey);
    IndexReads(db, db');
    BlockReads(db, db');
    TransactionReads(db, db');
  }

  lemma {:induction false} IndexReads(db: Columns, db': Columns)
    requires forall k :: Read(db, k) == Read(db', k)
    ensures db.blockHash == db'.blockHash && db.blockNumber == db'.blockNumber
  {
    forall n: nat
      ensures n in db.blockHash <==> n in db'.blockHash
      ensures n in db.blockHash ==> db.blockHash[n] == db'.blockHash[n]
    {
      assert Read(db, BlockHashKey(n)) == Read(db', BlockHashKey(n));
    }
    forall h: H256
      ensures h in db.blockNumber <==> h in db'.blockNumber
      ensures h in db.blockNumber ==> db.blockNumber[h] == db'.blockNumber[h]
    {
      assert Read(db, BlockNumberKey(h)) == Read(db', BlockNumberKey(h));
    }
  }

  lemma {:induction false} BlockReads(db: Columns, db': Columns)
    requires forall k :: Read(db, k) == Read(db', k)
    ensures db.blockHeader == db'.blockHeader && db.blockTransactions == db'.blockTransactions
  {
    forall h: H256
      ensures h in db.blockHeader <==> h in db'.blockHeader
      ensures h in db.blockHeader ==> db.blockHeader[h] == db'.blockHeader[h]
      ensures h in db.blockTransactions <==> h in db'.blockTransactions
      ensures h in db.blockTransactions ==> db.blockTransactions[h] == db'.blockTransactions[h]
    {
      assert Read(db, BlockHeaderKey(h)) == Read(db', BlockHeaderKey(h));
      assert Read(db, BlockTransactionsKey(h)) == Read(db', BlockTransactionsKey(h));
    }
  }

  lemma {:induction false} TransactionReads(db: Columns, db': Columns)
    requires forall k :: Read(db, k) == Read(db', k)
    ensures db.transaction == db'.transaction && db.transactionMeta == db'.transactionMeta
  {
    forall h: H256
      ensures h in db.transaction <==> h in db'.transaction
      ensures h in db.transaction ==> db.transaction[h] == db'.transaction[h]
      ensures h in db.transactionMeta <==> h in db'.transactionMeta
      ensures h in db.transactionMeta ==> db.transactionMeta[h] == db'.transactionMeta[h]
    {
      assert Read(db, TransactionKey(h)) == Read(db', TransactionKey(h));
      assert Read(db, TransactionMetaKey(h)) == Read(db', TransactionMetaKey(h));
    }
  }

  /** `MemoryDatabase::write` on an empty database: the last operation on each key; a deletion is
      remembered, not forgotten. */
  function Remember(update: seq<Operation>): map<Key, Operation> {
    if update == [] then map[] else
      var op := update[|update| - 1];
      Remember(update[..|update| - 1])[KeyOf(op) := op]
  }

  lemma {:induction false} RememberSnoc(update: seq<Operation>, op: Operation)
    ensures Remember(update + [op]) == Remember(update)[KeyOf(op) := op]
  {
    assert (update + [op])[..|update|] == update;
  }

  /** `OverlayDatabase::get`. */
  function Get(base: Columns, overlay: map<Key, Operation>, k: Key): Option<Value> {
    if k in overlay then Effect(overlay[k]) else Read(base, k)
  }

  /** `drain_transaction` in the order `keys` happens to list the remembered keys. */
  function Drain(overlay: map<Key, Operation>, keys: seq<Key>): seq<Operation>
    requires forall i :: 0 <= i < |keys| ==> keys[i] in overlay
  {
    seq(|keys|, i requires 0 <= i < |keys| => overlay[keys[i]])
  }

  /** Reading through an overlay sees the database below after all writes. */
  lemma {:induction false} ViewRefinesWrites(base: Columns, update: seq<Operation>, k: Key)
    ensures Get(base, Remember(update), k) == Read(ApplyAll(base, update), k)
    decreases |update|
  {
    hide Apply, Effect, Read, KeyOf;
    if update != [] {
      var n := |update| - 1;
      ViewRefinesWrites(base, update[..n], k);
      ReadApply(ApplyAll(base, update[..n]), update[n], k);
    }
  }

  lemma {:induction false} RememberedKeys(update: seq<Operation>, k: Key)
    ensures k in Remember(update) ==> KeyOf(Remember(update)[k]) == k
    decreases |update|
  {
    hide KeyOf;
    if update != [] {
      RememberedKeys(update[..|update| - 1], k);
    }
  }

  /** What a key reads as once the drained operations are applied. */
  lemma {:induction false} DrainedWrites(base: Columns, overlay: map<Key, Operation>, keys: seq<Key>, k: Key)
    requires forall i :: 0 <= i < |keys| ==> keys[i] in overlay && KeyOf(overlay[keys[i]]) == keys[i]
    ensures Read(ApplyAll(base, Drain(overlay, keys)), k) == if k in keys then Effect(overlay[k]) else Read(base, k)
    decreases |keys|
  {
    hide Apply, Effect, Read, KeyOf;
    if keys != [] {
      var n := |keys| - 1;
      var drained := Drain(overlay, keys);
      DrainedWrites(base, overlay, keys[..n], k);
      assert k in keys <==> k in keys[..n] || k == keys[n];
      assert drained[..n] == Drain(overlay, keys[..n]);
      ReadApply(ApplyAll(base, drained[..n]), drained[n], k);
    }
  }

  /** Flushing an overlay leaves the columns exactly as if every write had gone to them directly, in
      whatever order the remembered keys are drained. */
  lemma {:induction false} FlushInstallsCopy(base: Columns, update: seq<Operation>, keys: seq<Key>)
    requires forall k :: k in keys <==> k in Remember(update)
    ensures ApplyAll(base, Drain(Remember(update), keys)) == ApplyAll(base, update)
  {
    hide Apply, Effect, Read, KeyOf, ApplyAll;
    var overlay := Remember(update);
    var after := ApplyAll(base, Drain(overlay, keys));
    forall i | 0 <= i < |keys|
      ensures keys[i] in overlay && KeyOf(overlay[keys[i]]) == keys[i]
    {
      RememberedKeys(update, keys[i]);
    }
    forall k
      ensures Read(after, k) == Read(ApplyAll(base, update), k)
    {
      DrainedWrites(base, overlay, keys, k);
      ViewRefinesWrites(base, update, k);
    }
    ReadsDetermine(after, ApplyAll(base, update));
  }
}
