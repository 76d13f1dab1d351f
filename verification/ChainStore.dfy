/** The chain store as a state machine over its key/value columns (db/src/block_chain_db.rs). */
module ChainStore {
  import opened Primitives
  import opened Chain
  import opened TransactionMetas
  import opened KeyValue
  import opened SpentIndex

  const MAX_FORK_ROUTE_PRESET: nat := 2048

  datatype BestBlock = BestBlock(number: nat, hash: H256)

  /** In-memory best block and persistent columns. */
  datatype Store = Store(best: BestBlock, db: Columns)

  const NO_BLOCKS: BestBlock := BestBlock(0, ZERO_HASH)
  const EMPTY_STORE: Store := Store(NO_BLOCKS, EMPTY)

  datatype SideChainOrigin = SideChainOrigin(
    ancestor: nat,
    canonizedRoute: seq<H256>,
    decanonizedRoute: seq<H256>,
    blockNumber: nat)

  datatype BlockOrigin =
    | KnownBlock
    | CanonChain(blockNumber: nat)
    | SideChain(origin: SideChainOrigin)
    | SideChainBecomingCanonChain(origin: SideChainOrigin)

  // ---------------------------------------------------------------------------------------------
  // Reads.

  /** Listed transactions that are present; absent ones are skipped. */
  function FilterTransactions(db: Columns, hashes: seq<H256>): seq<IndexedTransaction> {
    if hashes == [] then [] else
      (if hashes[0] in db.transaction then [IndexedTransaction(hashes[0], db.transaction[hashes[0]])] else [])
      + FilterTransactions(db, hashes[1..])
  }

  function BlockTransactionHashes(db: Columns, hash: H256): seq<H256> {
    if hash in db.blockTransactions then db.blockTransactions[hash] else []
  }

  function ReadBlock(db: Columns, hash: H256): Option<IndexedBlock> {
    if hash !in db.blockHeader then None else
      Some(IndexedBlock(hash, db.blockHeader[hash], FilterTransactions(db, BlockTransactionHashes(db, hash))))
  }

  // ---------------------------------------------------------------------------------------------
  // Transitions. An error leaves the store as it was.

  /** Opening a database reads the best block back; half a record aborts. */
  function Open(db: Columns): Result<Store, Error> {
    if db.bestNumber.None? && db.bestHash.None? then Ok(Store(NO_BLOCKS, db))
    else if db.bestNumber.Some? && db.bestHash.Some? then
      Ok(Store(BestBlock(db.bestNumber.value, db.bestHash.value), db))
    else Err(AssertionFailed)
  }

  function AddTransactions(stored: map<H256, Transaction>, txs: seq<IndexedTransaction>): map<H256, Transaction> {
    if txs == [] then stored else
      var n := |txs| - 1;
      AddTransactions(stored, txs[..n])[txs[n].hash := txs[n].raw]
  }

  function Insert(s: Store, block: IndexedBlock): Result<Store, Error> {
    var parent := block.header.previousHeaderHash;
    if block.hash in s.db.blockHeader then Ok(s)
    else if parent !in s.db.blockHeader && parent != ZERO_HASH then Err(UnknownParent)
    else Ok(s.(db := s.db.(
      blockHeader := s.db.blockHeader[block.hash := block.header],
      blockTransactions := s.db.blockTransactions[block.hash := TxHashes(block.transactions)],
      transaction := AddTransactions(s.db.transaction, block.transactions))))
  }

  function Canonize(s: Store, hash: H256): Result<Store, Error> {
    var read := ReadBlock(s.db, hash);
    if read.None? then Err(CannotCanonize) else
    var parent := read.value.header.previousHeaderHash;
    if s.best.hash != parent then Err(CannotCanonize)
    else if parent == ZERO_HASH && s.best.number != 0 then Err(AssertionFailed)
    else
      var number := if parent == ZERO_HASH then 0 else s.best.number + 1;
      var metas :- CanonizeMetas(s.db.transactionMeta, number, read.value.transactions);
      Ok(Store(BestBlock(number, hash), s.db.(
        blockHash := s.db.blockHash[number := hash],
        blockNumber := s.db.blockNumber[hash := number],
        bestHash := Some(hash),
        bestNumber := Some(number),
        transactionMeta := metas)))
  }

  function Decanonize(s: Store): Result<(Store, H256), Error> {
    var read := ReadBlock(s.db, s.best.hash);
    if read.None? then Err(CannotDecanonize) else
    var parent := read.value.header.previousHeaderHash;
    if s.best.number == 0 && parent != ZERO_HASH then Err(AssertionFailed) else
      var best := BestBlock(if s.best.number > 0 then s.best.number - 1 else 0, parent);
      var metas :- DecanonizeMetas(s.db.transactionMeta, read.value.transactions);
      Ok((Store(best, s.db.(
        blockHash := s.db.blockHash - {s.best.number},
        blockNumber := s.db.blockNumber - {s.best.hash},
        bestHash := Some(best.hash),
        bestNumber := Some(best.number),
        transactionMeta := metas)), s.best.hash))
  }

  function Members(hashes: seq<H256>): set<H256> {
    set h | h in hashes
  }

  /** Drops the best block from the store altogether; returns the new best hash. */
  function RollbackBest(s: Store): Result<(Store, H256), Error> {
    var listed := BlockTransactionHashes(s.db, s.best.hash);
    var (s', gone) :- Decanonize(s);
    Ok((s'.(db := s'.db.(
      blockHeader := s'.db.blockHeader - {gone},
      blockTransactions := s'.db.blockTransactions - {gone},
      transaction := s'.db.transaction - Members(listed))), s'.best.hash))
  }

  /** Undoes the route newest block first, checking that each undone block is the listed one. */
  function DecanonizeRoute(s: Store, route: seq<H256>): Result<Store, Error>
    decreases |route|
  {
    if route == [] then Ok(s) else
      var n := |route| - 1;
      var (s', gone) :- Decanonize(s);
      if gone != route[n] then Err(AssertionFailed) else DecanonizeRoute(s', route[..n])
  }

  function CanonizeRoute(s: Store, route: seq<H256>): Result<Store, Error>
    decreases |route|
  {
    if route == [] then Ok(s) else
      var s' :- Canonize(s, route[0]);
      CanonizeRoute(s', route[1..])
  }

  /** The fork works on an overlay opened on the same columns. */
  function Fork(s: Store, origin: SideChainOrigin): Result<Store, Error> {
    var overlay :- Open(s.db);
    var undone :- DecanonizeRoute(overlay, origin.decanonizedRoute);
    CanonizeRoute(undone, origin.canonizedRoute)
  }

  // ---------------------------------------------------------------------------------------------
  // The canonical skeleton: heights, hashes and headers.

  /** Height `n` and hash `hs[n]` name each other, and the stored header of `hs[n]` names
      `hs[n - 1]` as its parent, or none at height 0. */
  ghost predicate CanonAt(db: Columns, hs: seq<H256>, n: nat)
    requires n < |hs|
  {
    && n in db.blockHash && db.blockHash[n] == hs[n]
    && hs[n] in db.blockNumber && db.blockNumber[hs[n]] == n
    && hs[n] in db.blockHeader
    && db.blockHeader[hs[n]].previousHeaderHash == (if n == 0 then ZERO_HASH else hs[n - 1])
  }

  ghost function BestOf(hs: seq<H256>): BestBlock {
    if hs == [] then NO_BLOCKS else BestBlock(|hs| - 1, hs[|hs| - 1])
  }

  /** `hs` lists the canonical hashes by height: the two indexes are inverse on exactly these, the
      headers are chained, and the best block is the last one, in memory and persisted. */
  ghost predicate Skeleton(s: Store, hs: seq<H256>) {
    && s.best == BestOf(hs)
    && ((s.db.bestNumber == None && s.db.bestHash == None && hs == []) ||
        (s.db.bestNumber == Some(s.best.number) && s.db.bestHash == Some(s.best.hash)))
    && (forall n :: n in s.db.blockHash ==> n < |hs|)
    && (forall h :: h in s.db.blockNumber ==> h in hs)
    && (forall n :: 0 <= n < |hs| ==> CanonAt(s.db, hs, n))
    && ZERO_HASH !in s.db.blockHeader
  }

  /** The in-memory best block is the persisted one: reopening restores the store. */
  lemma {:induction false} ReopenRestores(s: Store, hs: seq<H256>)
    requires Skeleton(s, hs)
    ensures Open(s.db) == Ok(s)
  {
  }

  lemma {:induction false} InsertKeepsSkeleton(s: Store, hs: seq<H256>, block: IndexedBlock)
    requires Skeleton(s, hs) && block.hash != ZERO_HASH
    ensures var r := Insert(s, block); r.Ok? ==> Skeleton(r.value, hs)
  {
    var r := Insert(s, block);
    if r.Ok? {
      forall n | 0 <= n < |hs|
        ensures CanonAt(r.value.db, hs, n)
      {
        assert CanonAt(s.db, hs, n);
      }
    }
  }

  lemma {:induction false} ParentIsNotBest(s: Store, hs: seq<H256>, n: nat)
    requires Skeleton(s, hs) && n < |hs|
    ensures hs[n] in s.db.blockHeader && s.db.blockHeader[hs[n]].previousHeaderHash != s.best.hash
  {
    assert CanonAt(s.db, hs, n) && CanonAt(s.db, hs, |hs| - 1);
    assert n > 0 ==> CanonAt(s.db, hs, n - 1);
  }

  lemma {:induction false} PushSkeleton(s: Store, hs: seq<H256>, hash: H256, metas: Metas)
    requires Skeleton(s, hs) && hash in s.db.blockHeader
    requires s.db.blockHeader[hash].previousHeaderHash == s.best.hash
    ensures Skeleton(Store(BestBlock(|hs|, hash), s.db.(
              blockHash := s.db.blockHash[|hs| := hash], blockNumber := s.db.blockNumber[hash := |hs|],
              bestHash := Some(hash), bestNumber := Some(|hs|), transactionMeta := metas)), hs + [hash])
  {
    var hs' := hs + [hash];
    var db' := s.db.(blockHash := s.db.blockHash[|hs| := hash], blockNumber := s.db.blockNumber[hash := |hs|],
                     bestHash := Some(hash), bestNumber := Some(|hs|), transactionMeta := metas);
    forall n | 0 <= n < |hs'|
      ensures CanonAt(db', hs', n)
    {
      if n < |hs| {
        assert CanonAt(s.db, hs, n);
        ParentIsNotBest(s, hs, n);  // so `hash` was not canonical yet
      }
    }
  }

  lemma {:induction false} CanonizeKeepsSkeleton(s: Store, hs: seq<H256>, hash: H256)
    requires Skeleton(s, hs)
    ensures Canonize(s, hash) != Err(AssertionFailed)
    ensures Canonize(s, hash).Ok? ==> Skeleton(Canonize(s, hash).value, hs + [hash])
  {
    var read := ReadBlock(s.db, hash);
    assert hs != [] ==> CanonAt(s.db, hs, |hs| - 1);
    if read.Some? && read.value.header.previousHeaderHash == s.best.hash {
      var metas := CanonizeMetas(s.db.transactionMeta, |hs|, read.value.transactions);
      CanonizeMetasError(s.db.transactionMeta, |hs|, read.value.transactions);
      if metas.Ok? {
        PushSkeleton(s, hs, hash, metas.value);
      }
    }
  }

  lemma {:induction false} PopSkeleton(s: Store, hs: seq<H256>, metas: Metas)
    requires Skeleton(s, hs) && hs != []
    ensures var n := |hs| - 1;
            var best := BestOf(hs[..n]);
            Skeleton(Store(best, s.db.(
              blockHash := s.db.blockHash - {n}, blockNumber := s.db.blockNumber - {hs[n]},
              bestHash := Some(best.hash), bestNumber := Some(best.number), transactionMeta := metas)), hs[..n])
  {
    var last := |hs| - 1;
    var hs' := hs[..last];
    var best := BestOf(hs');
    var db' := s.db.(blockHash := s.db.blockHash - {last}, blockNumber := s.db.blockNumber - {hs[last]},
                     bestHash := Some(best.hash), bestNumber := Some(best.number), transactionMeta := metas);
    assert CanonAt(s.db, hs, last);
    forall n | 0 <= n < last
      ensures CanonAt(db', hs', n)
    {
      assert CanonAt(s.db, hs, n);
    }
  }

  lemma {:induction false} DecanonizeKeepsSkeleton(s: Store, hs: seq<H256>)
    requires Skeleton(s, hs)
    ensures Decanonize(s) != Err(AssertionFailed)
    ensures hs == [] ==> Decanonize(s) == Err(CannotDecanonize)
    ensures Decanonize(s).Ok? ==>
              hs != [] && Decanonize(s).value.1 == hs[|hs| - 1] && Skeleton(Decanonize(s).value.0, hs[..|hs| - 1])
  {
    if hs != [] {
      assert CanonAt(s.db, hs, |hs| - 1);
      var txs := ReadBlock(s.db, s.best.hash).value.transactions;
      ReleaseRestError(s.db.transactionMeta, if txs == [] then [] else txs[1..]);
      var metas := DecanonizeMetas(s.db.transactionMeta, txs);
      if metas.Ok? {
        PopSkeleton(s, hs, metas.value);
      }
    }
  }

  lemma {:induction false} MarkInputsError(m: Metas, inputs: seq<TransactionInput>, used: bool, missing: Error)
    ensures var r := MarkInputs(m, inputs, used, missing); r.Err? ==> r.error == missing || r.error == OutputOutOfRange
    decreases |inputs|
  {
    if inputs != [] && inputs[0].previousOutput.hash in m {
      var o := inputs[0].previousOutput;
      var marked := m[o.hash].Denote(o.index, used);
      if marked.Some? {
        MarkInputsError(m[o.hash := marked.value], inputs[1..], used, missing);
      }
    }
  }

  lemma {:induction false} CanonizeRestError(m: Metas, height: nat, txs: seq<IndexedTransaction>)
    ensures var r := CanonizeRest(m, height, txs); r.Err? ==> r.error == CannotCanonize || r.error == OutputOutOfRange
    decreases |txs|
  {
    if txs != [] {
      var m0 := m[txs[0].hash := New(height, |txs[0].raw.outputs|)];
      MarkInputsError(m0, txs[0].raw.inputs, true, CannotCanonize);
      var r := MarkInputs(m0, txs[0].raw.inputs, true, CannotCanonize);
      if r.Ok? {
        CanonizeRestError(r.value, height, txs[1..]);
      }
    }
  }

  lemma {:induction false} CanonizeMetasError(m: Metas, height: nat, txs: seq<IndexedTransaction>)
    ensures var r := CanonizeMetas(m, height, txs); r.Err? ==> r.error == CannotCanonize || r.error == OutputOutOfRange
  {
    if txs != [] {
      CanonizeRestError(m[txs[0].hash := NewCoinbase(height, |txs[0].raw.outputs|)], height, txs[1..]);
    }
  }

  lemma {:induction false} ReleaseRestError(m: Metas, txs: seq<IndexedTransaction>)
    ensures var r := ReleaseRest(m, txs); r.Err? ==> r.error == CannotDecanonize || r.error == OutputOutOfRange
    decreases |txs|
  {
    if txs != [] {
      MarkInputsError(m, txs[0].raw.inputs, false, CannotDecanonize);
      var r := MarkInputs(m, txs[0].raw.inputs, false, CannotDecanonize);
      if r.Ok? {
        ReleaseRestError(r.value, txs[1..]);
      }
    }
  }

  lemma {:induction false} RollbackKeepsSkeleton(s: Store, hs: seq<H256>)
    requires Skeleton(s, hs)
    ensures RollbackBest(s) != Err(AssertionFailed)
    ensures RollbackBest(s).Ok? ==>
              hs != [] && Skeleton(RollbackBest(s).value.0, hs[..|hs| - 1]) && RollbackBest(s).value.1 == RollbackBest(s).value.0.best.hash
  {
    DecanonizeKeepsSkeleton(s, hs);
    if RollbackBest(s).Ok? {
      var hs', s', s'' := hs[..|hs| - 1], Decanonize(s).value.0, RollbackBest(s).value.0;
      forall n | 0 <= n < |hs'|
        ensures CanonAt(s''.db, hs', n)
      {
        assert CanonAt(s'.db, hs', n) && CanonAt(s.db, hs, n) && CanonAt(s.db, hs, |hs| - 1);
      }
    }
  }

  lemma {:induction false} SuffixSnoc(hs: seq<H256>, route: seq<H256>)
    requires 0 < |route| <= |hs| && route[|route| - 1] == hs[|hs| - 1]
    requires route[..|route| - 1] == hs[..|hs| - 1][|hs| - |route|..]
    ensures route == hs[|hs| - |route|..]
    ensures hs[..|hs| - 1][..|hs| - |route|] == hs[..|hs| - |route|]
  {
  }

  /** A route that can be undone is the end of the canonical chain. */
  lemma {:induction false} DecanonizeRouteKeepsSkeleton(s: Store, hs: seq<H256>, route: seq<H256>)
    requires Skeleton(s, hs)
    ensures DecanonizeRoute(s, route).Ok? ==> |route| <= |hs| && route == hs[|hs| - |route|..]
    ensures DecanonizeRoute(s, route).Ok? ==> Skeleton(DecanonizeRoute(s, route).value, hs[..|hs| - |route|])
    decreases |route|
  {
    if route == [] {
      assert hs[..|hs|] == hs;
    } else if DecanonizeRoute(s, route).Ok? {
      DecanonizeKeepsSkeleton(s, hs);
      DecanonizeRouteKeepsSkeleton(Decanonize(s).value.0, hs[..|hs| - 1], route[..|route| - 1]);
      SuffixSnoc(hs, route);
    }
  }

  lemma {:induction false} CanonizeRouteKeepsSkeleton(s: Store, hs: seq<H256>, route: seq<H256>)
    requires Skeleton(s, hs)
    ensures CanonizeRoute(s, route) != Err(AssertionFailed)
    ensures CanonizeRoute(s, route).Ok? ==> Skeleton(CanonizeRoute(s, route).value, hs + route)
    decreases |route|
  {
    if route == [] {
      assert hs + route == hs;
    } else {
      CanonizeKeepsSkeleton(s, hs, route[0]);
      var r := Canonize(s, route[0]);
      if r.Ok? {
        CanonizeRouteKeepsSkeleton(r.value, hs + [route[0]], route[1..]);
        assert hs + [route[0]] + route[1..] == hs + route;
      }
    }
  }

  // ---------------------------------------------------------------------------------------------
  // Runs.

  datatype Step =
    | DoInsert(block: IndexedBlock)
    | DoCanonize(hash: H256)
    | DoDecanonize
    | DoSwitchToFork(origin: SideChainOrigin)
    | DoRollbackBest

  function Next(s: Store, step: Step): Store {
    match step
    case DoInsert(block) => (var r := Insert(s, block); if r.Ok? then r.value else s)
    case DoCanonize(hash) => (var r := Canonize(s, hash); if r.Ok? then r.value else s)
    case DoDecanonize => (var r := Decanonize(s); if r.Ok? then r.value.0 else s)
    case DoSwitchToFork(origin) => (var r := Fork(s, origin); if r.Ok? then r.value else s)
    case DoRollbackBest => (var r := RollbackBest(s); if r.Ok? then r.value.0 else s)
  }

  function Final(s: Store, steps: seq<Step>): Store
    decreases |steps|
  {
    if steps == [] then s else Final(Next(s, steps[0]), steps[1..])
  }

  ghost predicate HasSkeleton(s: Store) {
    exists hs :: Skeleton(s, hs)
  }

  /** One step, whatever its arguments, keeps the canonical skeleton, provided no block hashes to zero. */
  lemma {:induction false} NextKeepsSkeleton(s: Store, step: Step)
    requires HasSkeleton(s)
    requires step.DoInsert? ==> step.block.hash != ZERO_HASH
    ensures HasSkeleton(Next(s, step))
  {
    var hs :| Skeleton(s, hs);
    match step {
      case DoInsert(block) =>
        InsertKeepsSkeleton(s, hs, block);
      case DoCanonize(hash) =>
        CanonizeKeepsSkeleton(s, hs, hash);
      case DoDecanonize =>
        DecanonizeKeepsSkeleton(s, hs);
      case DoRollbackBest =>
        RollbackKeepsSkeleton(s, hs);
      case DoSwitchToFork(origin) =>
        ReopenRestores(s, hs);
        var undone := DecanonizeRoute(s, origin.decanonizedRoute);
        if undone.Ok? {
          DecanonizeRouteKeepsSkeleton(s, hs, origin.decanonizedRoute);
          CanonizeRouteKeepsSkeleton(undone.value, hs[..|hs| - |origin.decanonizedRoute|], origin.canonizedRoute);
        }
    }
  }

  /** Every run of the five operations, on any blocks and in any order, keeps the skeleton. */
  lemma {:induction false} RunsKeepSkeleton(s: Store, steps: seq<Step>)
    requires HasSkeleton(s)
    requires forall i :: 0 <= i < |steps| && steps[i].DoInsert? ==> steps[i].block.hash != ZERO_HASH
    ensures HasSkeleton(Final(s, steps))
    decreases |steps|
  {
    if steps != [] {
      NextKeepsSkeleton(s, steps[0]);
      RunsKeepSkeleton(Next(s, steps[0]), steps[1..]);
    }
  }

  lemma {:induction false} EmptyStoreHasSkeleton()
    ensures Skeleton(EMPTY_STORE, []) && HasSkeleton(EMPTY_STORE)
  {
    assert Skeleton(EMPTY_STORE, []);
  }
}
