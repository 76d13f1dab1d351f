/** What the chain store promises: its indexes are a replay of the canonical chain, whatever
    sequence of reorganisations led there (db/src/block_chain_db.rs). */
module CanonicalChain {
  import opened Primitives
  import opened Chain
  import opened KeyValue
  import opened SpentIndex
  import opened ChainStore

  ghost function BlockHashes(chain: seq<IndexedBlock>): seq<H256> {
    seq(|chain|, i requires 0 <= i < |chain| => chain[i].hash)
  }

  /** Header, transaction list and every listed transaction of `b` are in the columns. */
  ghost predicate StoredBlock(db: Columns, b: IndexedBlock) {
    && b.hash in db.blockHeader && db.blockHeader[b.hash] == b.header
    && b.hash in db.blockTransactions && db.blockTransactions[b.hash] == TxHashes(b.transactions)
    && forall j :: 0 <= j < |b.transactions| ==> StoredTransaction(db, b.transactions[j])
  }

  ghost predicate StoredTransaction(db: Columns, tx: IndexedTransaction) {
    tx.hash in db.transaction && db.transaction[tx.hash] == tx.raw
  }

  ghost predicate StoredBlocks(db: Columns, chain: seq<IndexedBlock>) {
    forall i :: 0 <= i < |chain| ==> StoredBlock(db, chain[i])
  }

  /** The store holds `chain` as its canonical chain, with heights, parents, best block and
      transaction metas all as a replay of `chain` gives them. */
  ghost predicate Canonical(s: Store, chain: seq<IndexedBlock>) {
    && Skeleton(s, BlockHashes(chain))
    && StoredBlocks(s.db, chain)
    && Replayed(s.db.transactionMeta, chain)
  }

  lemma {:induction false} EmptyStoreCanonical()
    ensures Canonical(EMPTY_STORE, [])
  {
  }

  lemma {:induction false} ListedTransactions(db: Columns, txs: seq<IndexedTransaction>)
    requires forall j :: 0 <= j < |txs| ==> StoredTransaction(db, txs[j])
    ensures FilterTransactions(db, TxHashes(txs)) == txs
    decreases |txs|
  {
    if txs != [] {
      assert TxHashes(txs)[1..] == TxHashes(txs[1..]);
      assert StoredTransaction(db, txs[0]);
      ListedTransactions(db, txs[1..]);
    }
  }

  lemma {:induction false} StoredBlockReads(db: Columns, b: IndexedBlock)
    requires StoredBlock(db, b)
    ensures ReadBlock(db, b.hash) == Some(b)
  {
    ListedTransactions(db, b.transactions);
  }

  // ---------------------------------------------------------------------------------------------
  // Canonize and decanonize.

  /** Canonizing a stored block that validly follows the best block appends it to the chain. */
  lemma {:induction false} CanonizeExtends(s: Store, chain: seq<IndexedBlock>, b: IndexedBlock)
    requires Canonical(s, chain) && StoredBlock(s.db, b)
    requires b.header.previousHeaderHash == s.best.hash && ValidBlock(chain, b.transactions)
    ensures var r := Canonize(s, b.hash);
            r.Ok? && Canonical(r.value, chain + [b])
  {
    hide Replayed, ValidBlock;
    StoredBlockReads(s.db, b);
    CanonizeReplays(s.db.transactionMeta, chain, b);
    CanonizeKeepsSkeleton(s, BlockHashes(chain), b.hash);
    assert BlockHashes(chain + [b]) == BlockHashes(chain) + [b.hash];
    assert chain != [] ==> CanonAt(s.db, BlockHashes(chain), |chain| - 1);
    var s' := Canonize(s, b.hash).value;
    forall i | 0 <= i < |chain + [b]|
      ensures StoredBlock(s'.db, (chain + [b])[i])
    {
      SameBodies(s.db, s'.db, (chain + [b])[i]);
    }
  }

  lemma {:induction false} SameBodies(db: Columns, db': Columns, b: IndexedBlock)
    requires db'.blockHeader == db.blockHeader && db'.blockTransactions == db.blockTransactions
    requires db'.transaction == db.transaction
    ensures StoredBlock(db, b) ==> StoredBlock(db', b)
  {
  }

  lemma {:induction false} CanonizeKeepsBodies(s: Store, hash: H256)
    ensures var r := Canonize(s, hash);
            r.Ok? ==> && r.value.db.blockHeader == s.db.blockHeader
                      && r.value.db.blockTransactions == s.db.blockTransactions
                      && r.value.db.transaction == s.db.transaction && r.value.best.hash == hash
  {
  }

  /** Decanonizing always succeeds on a non-empty chain and removes its last block. */
  lemma {:induction false} DecanonizeShrinks(s: Store, chain: seq<IndexedBlock>)
    requires Canonical(s, chain)
    ensures chain != [] ==>
              var n := |chain| - 1;
              var r := Decanonize(s);
              r.Ok? && r.value.1 == chain[n].hash && Canonical(r.value.0, chain[..n])
  {
    if chain != [] {
      hide Replayed, Decanonize, CanonAt;
      var n, hs := |chain| - 1, BlockHashes(chain);
      DecanonizeSucceeds(s, chain);
      DecanonizeReplays(s.db.transactionMeta, chain);
      DecanonizeKeepsSkeleton(s, hs);
      assert hs[..n] == BlockHashes(chain[..n]);
      var s' := Decanonize(s).value.0;
      forall i | 0 <= i < n
        ensures StoredBlock(s'.db, chain[..n][i])
      {
        SameBodies(s.db, s'.db, chain[i]);
      }
    }
  }

  lemma {:induction false} DecanonizeSucceeds(s: Store, chain: seq<IndexedBlock>)
    requires Canonical(s, chain)
    ensures chain != [] ==>
              var metas := DecanonizeMetas(s.db.transactionMeta, chain[|chain| - 1].transactions);
              var r := Decanonize(s);
              && metas.Ok? && r.Ok? && r.value.1 == chain[|chain| - 1].hash && r.value.0.db.transactionMeta == metas.value
              && r.value.0.db.blockHeader == s.db.blockHeader && r.value.0.db.blockTransactions == s.db.blockTransactions
              && r.value.0.db.transaction == s.db.transaction
  {
    hide Replayed, DecanonizeMetas;
    if chain != [] {
      var n := |chain| - 1;
      StoredBlockReads(s.db, chain[n]);
      DecanonizeReplays(s.db.transactionMeta, chain);
      DecanonizeKeepsSkeleton(s, BlockHashes(chain));
      assert CanonAt(s.db, BlockHashes(chain), n);
    }
  }

  /** Decanonizing straight after canonizing restores the best block, both height indexes and every
      transaction meta. Only the persisted best block may differ, on a store that never had one. */
  lemma {:induction false} DecanonizeUndoesCanonize(s: Store, chain: seq<IndexedBlock>, b: IndexedBlock)
    requires Canonical(s, chain) && StoredBlock(s.db, b)
    requires b.header.previousHeaderHash == s.best.hash && ValidBlock(chain, b.transactions)
    ensures var r := Canonize(s, b.hash);
            r.Ok? &&
            var u := Decanonize(r.value);
            && u.Ok? && u.value.1 == b.hash
            && u.value.0 == s.(db := s.db.(bestHash := Some(s.best.hash), bestNumber := Some(s.best.number)))
  {
    CanonizeExtends(s, chain, b);
    var s1 := Canonize(s, b.hash).value;
    DecanonizeShrinks(s1, chain + [b]);
    var s2 := Decanonize(s1).value.0;
    assert (chain + [b])[..|chain|] == chain;
    SameSkeletonIndexes(s, s2, BlockHashes(chain));
    IndexUnique(s.db.transactionMeta, s2.db.transactionMeta, ChainLog(chain), ChainSpends(chain));
  }

  lemma {:induction false} SameSkeletonIndexes(s: Store, s': Store, hs: seq<H256>)
    requires Skeleton(s, hs) && Skeleton(s', hs)
    ensures s.best == s'.best && s.db.blockHash == s'.db.blockHash && s.db.blockNumber == s'.db.blockNumber
  {
    forall n | 0 <= n < |hs|
      ensures n in s.db.blockHash && n in s'.db.blockHash && s.db.blockHash[n] == s'.db.blockHash[n]
      ensures hs[n] in s.db.blockNumber && hs[n] in s'.db.blockNumber
      ensures s.db.blockNumber[hs[n]] == s'.db.blockNumber[hs[n]]
    {
      assert CanonAt(s.db, hs, n) && CanonAt(s'.db, hs, n);
    }
    assert forall n :: n in s.db.blockHash <==> n in s'.db.blockHash;
    assert forall h :: h in s.db.blockNumber <==> h in s'.db.blockNumber;
  }

  // ---------------------------------------------------------------------------------------------
  // Insert and rollback.

  /** Equal hashes name equal transactions, in the block and in the columns. */
  ghost predicate ConsistentBody(db: Columns, txs: seq<IndexedTransaction>) {
    && (forall j :: 0 <= j < |txs| && txs[j].hash in db.transaction ==> db.transaction[txs[j].hash] == txs[j].raw)
    && (forall i, j :: 0 <= i < |txs| && 0 <= j < |txs| && txs[i].hash == txs[j].hash ==> txs[i].raw == txs[j].raw)
  }

  lemma {:induction false} AddedTransactions(stored: map<H256, Transaction>, txs: seq<IndexedTransaction>)
    requires forall i, j :: 0 <= i < |txs| && 0 <= j < |txs| && txs[i].hash == txs[j].hash ==> txs[i].raw == txs[j].raw
    ensures var after := AddTransactions(stored, txs);
            && (forall j :: 0 <= j < |txs| ==> txs[j].hash in after && after[txs[j].hash] == txs[j].raw)
            && (forall h :: h in stored && h !in HashSet(txs) ==> h in after && after[h] == stored[h])
    decreases |txs|
  {
    if txs != [] {
      var n := |txs| - 1;
      AddedTransactions(stored, txs[..n]);
      assert forall j :: 0 <= j < n ==> txs[..n][j] == txs[j];
      assert txs[n].hash in HashSet(txs);
    }
  }

  /** Inserting stores the block and leaves the canonical chain alone. */
  lemma {:induction false} InsertKeepsCanonical(s: Store, chain: seq<IndexedBlock>, b: IndexedBlock)
    requires Canonical(s, chain) && b.hash != ZERO_HASH && ConsistentBody(s.db, b.transactions)
    ensures Insert(s, b).Ok? ==> Canonical(Insert(s, b).value, chain)
    ensures Insert(s, b).Ok? && b.hash !in s.db.blockHeader ==> StoredBlock(Insert(s, b).value.db, b)
  {
    InsertKeepsSkeleton(s, BlockHashes(chain), b);
    if Insert(s, b).Ok? && b.hash !in s.db.blockHeader {
      var db' := Insert(s, b).value.db;
      AddedTransactions(s.db.transaction, b.transactions);
      forall i | 0 <= i < |chain|
        ensures StoredBlock(db', chain[i])
      {
        assert StoredBlock(s.db, chain[i]);
        forall j | 0 <= j < |chain[i].transactions|
          ensures StoredTransaction(db', chain[i].transactions[j])
        {
          assert StoredTransaction(s.db, chain[i].transactions[j]);
        }
      }
      assert forall j :: 0 <= j < |b.transactions| ==> StoredTransaction(db', b.transactions[j]);
    }
  }

  /** Every transaction of every block is in the log. */
  lemma {:induction false} LoggedTransactions(chain: seq<IndexedBlock>, i: nat, j: nat)
    requires i < |chain| && j < |chain[i].transactions|
    ensures chain[i].transactions[j].hash in LogHashes(ChainLog(chain))
    decreases |chain|
  {
    var n := |chain| - 1;
    var base, ps := ChainLog(chain[..n]), Postings(n, chain[n].transactions);
    if i == n {
      assert ChainLog(chain)[|base| + j] == ps[j];
    } else {
      LoggedTransactions(chain[..n], i, j);
      assert forall a :: 0 <= a < |base| ==> ChainLog(chain)[a] == base[a];
    }
  }

  /** A first block that follows nothing and spends only its own outputs starts a chain. */
  lemma {:induction false} FirstBlock(b: IndexedBlock)
    requires b.hash != ZERO_HASH && b.header.previousHeaderHash == ZERO_HASH
    requires ConsistentBody(EMPTY, b.transactions) && ValidBlock([], b.transactions)
    ensures var inserted := Insert(EMPTY_STORE, b);
            inserted.Ok? && Canonize(inserted.value, b.hash).Ok? && Canonical(Canonize(inserted.value, b.hash).value, [b])
  {
    hide Replayed, ValidBlock, Canonize;
    EmptyStoreCanonical();
    InsertKeepsCanonical(EMPTY_STORE, [], b);
    CanonizeExtends(Insert(EMPTY_STORE, b).value, [], b);
    assert [] + [b] == [b];
  }

  /** Rolling back drops the last block and its transactions; the rest of the chain stays intact. */
  lemma {:induction false} RollbackKeepsCanonical(s: Store, chain: seq<IndexedBlock>)
    requires Canonical(s, chain)
    ensures chain != [] ==>
              var n := |chain| - 1;
              var r := RollbackBest(s);
              && r.Ok? && Canonical(r.value.0, chain[..n]) && chain[n].hash !in r.value.0.db.blockHeader
              && r.value.1 == (if n == 0 then ZERO_HASH else chain[n - 1].hash)
  {
    if chain == [] {
      return;
    }
    hide Replayed;
    var n := |chain| - 1;
    var hs := BlockHashes(chain);
    DecanonizeShrinks(s, chain);
    RollbackKeepsSkeleton(s, hs);
    assert hs[..n] == BlockHashes(chain[..n]);
    var s', s'' := Decanonize(s).value.0, RollbackBest(s).value.0;
    forall i | 0 <= i < n
      ensures StoredBlock(s''.db, chain[..n][i])
    {
      RollbackKeepsBlock(s, chain, i);
    }
  }

  lemma {:induction false} RollbackKeepsBlock(s: Store, chain: seq<IndexedBlock>, i: nat)
    requires Canonical(s, chain) && i < |chain| - 1
    ensures RollbackBest(s).Ok? ==> StoredBlock(RollbackBest(s).value.0.db, chain[i])
  {
    hide ValidChain, Decanonize, DecanonizeMetas;
    var n, hs := |chain| - 1, BlockHashes(chain);
    DecanonizeSucceeds(s, chain);
    hide Canonical;
    var db', b, gone := RollbackBest(s).value.0.db, chain[i], chain[n];
    assert StoredBlock(s.db, b) && StoredBlock(s.db, gone);
    assert CanonAt(s.db, hs, i) && CanonAt(s.db, hs, n);
    forall j | 0 <= j < |b.transactions|
      ensures StoredTransaction(db', b.transactions[j])
    {
      assert StoredTransaction(s.db, b.transactions[j]);
      LoggedTransactions(chain[..n], i, j);
      NotRelisted(chain, b.transactions[j].hash);
    }
  }

  /** The last block of a valid chain repeats no earlier transaction. */
  lemma {:induction false} NotRelisted(chain: seq<IndexedBlock>, h: H256)
    requires chain != [] && ValidChain(chain) && h in LogHashes(ChainLog(chain[..|chain| - 1]))
    ensures h !in TxHashes(chain[|chain| - 1].transactions)
  {
  }

  // ---------------------------------------------------------------------------------------------
  // Forks.

  lemma {:induction false} DecanonizeSuffix(s: Store, chain: seq<IndexedBlock>, keep: nat)
    requires Canonical(s, chain) && keep <= |chain|
    ensures var r := DecanonizeRoute(s, BlockHashes(chain[keep..]));
            r.Ok? && Canonical(r.value, chain[..keep])
    decreases |chain|
  {
    hide Canonical;
    if keep == |chain| {
      assert chain[..keep] == chain;
    } else {
      var n := |chain| - 1;
      var route := BlockHashes(chain[keep..]);
      DecanonizeShrinks(s, chain);
      DecanonizeSuffix(Decanonize(s).value.0, chain[..n], keep);
      assert chain[..n][..keep] == chain[..keep];
      assert route[..|route| - 1] == BlockHashes(chain[..n][keep..]);
      assert route[|route| - 1] == chain[n].hash;
    }
  }

  /** The blocks of a side branch in order, each naming the previous one as its parent. */
  ghost predicate Follows(parent: H256, blocks: seq<IndexedBlock>) {
    forall i :: 0 <= i < |blocks| ==> FollowsAt(parent, blocks, i)
  }

  ghost predicate FollowsAt(parent: H256, blocks: seq<IndexedBlock>, i: nat)
    requires i < |blocks|
  {
    blocks[i].header.previousHeaderHash == if i == 0 then parent else blocks[i - 1].hash
  }

  lemma {:induction false} CanonizeBranch(s: Store, chain: seq<IndexedBlock>, blocks: seq<IndexedBlock>)
    requires Canonical(s, chain) && StoredBlocks(s.db, blocks) && Follows(s.best.hash, blocks)
    requires ValidChain(chain + blocks)
    ensures var r := CanonizeRoute(s, BlockHashes(blocks));
            r.Ok? && Canonical(r.value, chain + blocks)
    decreases |blocks|
  {
    hide Canonical, ValidChain, ValidBlock, Canonize, StoredBlock;
    if blocks == [] {
      assert chain + blocks == chain;
    } else {
      var b, rest := blocks[0], blocks[1..];
      assert chain + blocks == chain + [b] + rest;
      ValidPrefix(chain + blocks, |chain| + 1);
      assert (chain + blocks)[..|chain| + 1] == chain + [b];
      LongerChain(chain, b);
      assert StoredBlock(s.db, b) && FollowsAt(s.best.hash, blocks, 0);
      CanonizeExtends(s, chain, b);
      CanonizeKeepsBodies(s, b.hash);
      var s' := Canonize(s, b.hash).value;
      forall i | 0 <= i < |rest|
        ensures StoredBlock(s'.db, rest[i])
        ensures FollowsAt(s'.best.hash, rest, i)
      {
        assert StoredBlock(s.db, blocks[i + 1]) && FollowsAt(s.best.hash, blocks, i + 1);
        SameBodies(s.db, s'.db, blocks[i + 1]);
      }
      CanonizeBranch(s', chain + [b], rest);
      assert BlockHashes(blocks)[1..] == BlockHashes(rest);
    }
  }

  lemma {:induction false} ValidPrefix(chain: seq<IndexedBlock>, n: nat)
    requires ValidChain(chain) && n <= |chain|
    ensures ValidChain(chain[..n])
    decreases |chain|
  {
    if n == |chain| {
      assert chain[..n] == chain;
    } else {
      ValidPrefix(chain[..|chain| - 1], n);
      assert chain[..|chain| - 1][..n] == chain[..n];
    }
  }

  /** Forking back to height `keep` and over to a stored, valid branch succeeds and lands on it. */
  lemma {:induction false} ForkSwitches(s: Store, chain: seq<IndexedBlock>, keep: nat, blocks: seq<IndexedBlock>, origin: SideChainOrigin)
    requires Canonical(s, chain) && keep <= |chain|
    requires origin.decanonizedRoute == BlockHashes(chain[keep..]) && origin.canonizedRoute == BlockHashes(blocks)
    requires StoredBlocks(s.db, blocks) && ValidChain(chain[..keep] + blocks)
    requires Follows(if keep == 0 then ZERO_HASH else chain[keep - 1].hash, blocks)
    ensures Fork(s, origin).Ok? && Canonical(Fork(s, origin).value, chain[..keep] + blocks)
  {
    hide Replayed, ValidChain, StoredBlock;
    ReopenRestores(s, BlockHashes(chain));
    DecanonizeSuffix(s, chain, keep);
    var s' := DecanonizeRoute(s, origin.decanonizedRoute).value;
    RouteKeepsBodies(s, origin.decanonizedRoute);
    forall i | 0 <= i < |blocks|
      ensures StoredBlock(s'.db, blocks[i])
    {
      assert StoredBlock(s.db, blocks[i]);
      SameBodies(s.db, s'.db, blocks[i]);
    }
    CanonizeBranch(s', chain[..keep], blocks);
  }

  lemma {:induction false} RouteKeepsBodies(s: Store, route: seq<H256>)
    ensures var r := DecanonizeRoute(s, route);
            r.Ok? ==> && r.value.db.blockHeader == s.db.blockHeader
                      && r.value.db.blockTransactions == s.db.blockTransactions
                      && r.value.db.transaction == s.db.transaction
    decreases |route|
  {
    if route != [] && Decanonize(s).Ok? {
      RouteKeepsBodies(Decanonize(s).value.0, route[..|route| - 1]);
    }
  }

  // ---------------------------------------------------------------------------------------------
  // Runs over well-formed blocks.

  /** What each operation needs for the replay to survive it. Rollback needs nothing. */
  ghost predicate Admissible(s: Store, chain: seq<IndexedBlock>, step: Step) {
    match step
    case DoInsert(b) => b.hash != ZERO_HASH && ConsistentBody(s.db, b.transactions)
    case DoCanonize(hash) =>
      Canonize(s, hash).Ok? ==>
        exists b: IndexedBlock :: b.hash == hash && StoredBlock(s.db, b) && ValidBlock(chain, b.transactions)
    case DoDecanonize => true
    case DoRollbackBest => true
    case DoSwitchToFork(origin) =>
      Fork(s, origin).Ok? ==>
        exists keep: nat, blocks: seq<IndexedBlock> :: ForkRoute(s, chain, origin, keep, blocks)
  }

  /** `origin` undoes the chain back to `keep` blocks and replays the stored, valid `blocks`. */
  ghost predicate ForkRoute(s: Store, chain: seq<IndexedBlock>, origin: SideChainOrigin, keep: nat, blocks: seq<IndexedBlock>) {
    && keep <= |chain|
    && origin.decanonizedRoute == BlockHashes(chain[keep..]) && origin.canonizedRoute == BlockHashes(blocks)
    && StoredBlocks(s.db, blocks) && ValidChain(chain[..keep] + blocks)
    && Follows(if keep == 0 then ZERO_HASH else chain[keep - 1].hash, blocks)
  }

  ghost predicate IsCanonical(s: Store) {
    exists chain :: Canonical(s, chain)
  }

  ghost predicate AdmissibleRun(s: Store, steps: seq<Step>)
    decreases |steps|
  {
    steps == [] ||
    ((forall chain :: Canonical(s, chain) ==> Admissible(s, chain, steps[0])) && AdmissibleRun(Next(s, steps[0]), steps[1..]))
  }

  lemma {:induction false} NextKeepsCanonical(s: Store, chain: seq<IndexedBlock>, step: Step)
    requires Canonical(s, chain) && Admissible(s, chain, step)
    ensures IsCanonical(Next(s, step))
  {
    if Next(s, step) != s {
      match step {
        case DoInsert(b) =>
          InsertKeepsCanonical(s, chain, b);
        case DoCanonize(hash) =>
          var b: IndexedBlock :| b.hash == hash && StoredBlock(s.db, b) && ValidBlock(chain, b.transactions);
          CanonizeExtends(s, chain, b);
        case DoDecanonize =>
          DecanonizeKeepsSkeleton(s, BlockHashes(chain));
          DecanonizeShrinks(s, chain);
        case DoRollbackBest =>
          RollbackKeepsSkeleton(s, BlockHashes(chain));
          RollbackKeepsCanonical(s, chain);
        case DoSwitchToFork(origin) =>
          var keep: nat, blocks: seq<IndexedBlock> :| ForkRoute(s, chain, origin, keep, blocks);
          ForkSwitches(s, chain, keep, blocks, origin);
      }
    }
  }

  /** Along every admissible run of inserts, canonizations, decanonizations, fork switches and
      rollbacks, the store stays a replay of its canonical chain. */
  lemma {:induction false} RunsStayCanonical(s: Store, steps: seq<Step>)
    requires IsCanonical(s) && AdmissibleRun(s, steps)
    ensures IsCanonical(Final(s, steps))
    decreases |steps|
  {
    if steps != [] {
      var chain :| Canonical(s, chain);
      NextKeepsCanonical(s, chain, steps[0]);
      RunsStayCanonical(Next(s, steps[0]), steps[1..]);
    }
  }

  /** In every such store the transactions with a meta are those of canonical blocks, and an output
      reads as spent exactly when a canonical non-coinbase transaction spends it. */
  lemma {:induction false} CanonicalMeaning(s: Store, chain: seq<IndexedBlock>, h: H256, o: OutPoint)
    requires Canonical(s, chain)
    ensures h in s.db.transactionMeta <==>
              exists i, j :: 0 <= i < |chain| && 0 <= j < |chain[i].transactions| && chain[i].transactions[j].hash == h
    ensures IsSpent(s.db.transactionMeta, o) <==> SpentOnChain(chain, o)
  {
    IsSpentMeaning(s.db.transactionMeta, chain, o);
    if h in s.db.transactionMeta {
      LogOrigin(chain, h);
    }
    forall i, j | 0 <= i < |chain| && 0 <= j < |chain[i].transactions| && chain[i].transactions[j].hash == h
      ensures h in s.db.transactionMeta
    {
      LoggedTransactions(chain, i, j);
    }
  }

  lemma {:induction false} LogOrigin(chain: seq<IndexedBlock>, h: H256)
    requires h in LogHashes(ChainLog(chain))
    ensures exists i, j :: 0 <= i < |chain| && 0 <= j < |chain[i].transactions| && chain[i].transactions[j].hash == h
    decreases |chain|
  {
    var n := |chain| - 1;
    var base, txs := ChainLog(chain[..n]), chain[n].transactions;
    var a :| 0 <= a < |ChainLog(chain)| && ChainLog(chain)[a].tx.hash == h;
    if a < |base| {
      assert base[a] == ChainLog(chain)[a];
      LogOrigin(chain[..n], h);
      var i, j :| 0 <= i < n && 0 <= j < |chain[..n][i].transactions| && chain[..n][i].transactions[j].hash == h;
      assert chain[i].transactions[j].hash == h;
    } else {
      assert ChainLog(chain)[a] == Postings(n, txs)[a - |base|];
      assert txs[a - |base|].hash == h;
    }
  }

  // ---------------------------------------------------------------------------------------------
  // Independence of history.

  /** Stored blocks and best hash determine the canonical chain. */
  lemma {:induction false} ChainDetermined(s: Store, chain: seq<IndexedBlock>, s': Store, chain': seq<IndexedBlock>)
    requires Canonical(s, chain) && Canonical(s', chain')
    requires s.db.blockHeader == s'.db.blockHeader && s.db.blockTransactions == s'.db.blockTransactions
    requires s.db.transaction == s'.db.transaction && s.best.hash == s'.best.hash
    ensures chain == chain'
  {
    SuffixDetermined(s, chain, s', chain', |chain|);
  }

  lemma {:induction false} SuffixDetermined(s: Store, chain: seq<IndexedBlock>, s': Store, chain': seq<IndexedBlock>, k: nat)
    requires Canonical(s, chain) && Canonical(s', chain') && k <= |chain|
    requires s.db.blockHeader == s'.db.blockHeader && s.db.blockTransactions == s'.db.blockTransactions
    requires s.db.transaction == s'.db.transaction && s.best.hash == s'.best.hash
    ensures k <= |chain'| && chain[|chain| - k..] == chain'[|chain'| - k..]
    ensures k == |chain| ==> |chain'| == k
    decreases k
  {
    hide Canonical;
    if k > 0 {
      SuffixDetermined(s, chain, s', chain', k - 1);
      NextBackDetermined(s, chain, s', chain', k);
    }
    if k == |chain| && |chain'| > k {
      PositionDetermined(s, chain, s', chain', k);
    }
  }

  /** The parent of the `k`-block suffix, or zero when the suffix is the whole chain. */
  ghost function Before(chain: seq<IndexedBlock>, k: nat): H256
    requires k <= |chain|
  {
    if k == |chain| then ZERO_HASH else chain[|chain| - k - 1].hash
  }

  /** Equal suffixes have equal predecessors. */
  lemma {:induction false} PositionDetermined(s: Store, chain: seq<IndexedBlock>, s': Store, chain': seq<IndexedBlock>, k: nat)
    requires Canonical(s, chain) && Canonical(s', chain') && k <= |chain| && k <= |chain'|
    requires s.db.blockHeader == s'.db.blockHeader && s.best.hash == s'.best.hash
    requires chain[|chain| - k..] == chain'[|chain'| - k..]
    ensures Before(chain, k) == Before(chain', k)
    ensures k == |chain| <==> k == |chain'|
  {
    hide Canonical;
    var i, i' := |chain| - k, |chain'| - k;
    if i > 0 {
      ChainLink(s, chain, i - 1);
    }
    if i' > 0 {
      ChainLink(s', chain', i' - 1);
    }
    if k > 0 {
      ChainLink(s, chain, i);
      ChainLink(s', chain', i');
      assert chain[i] == chain[|chain| - k..][0] && chain'[i'] == chain'[|chain'| - k..][0];
    } else {
      BestLink(s, chain);
      BestLink(s', chain');
    }
  }

  lemma {:induction false} BestLink(s: Store, chain: seq<IndexedBlock>)
    requires Canonical(s, chain)
    ensures s.best.hash == Before(chain, 0)
  {
  }

  lemma {:induction false} ChainLink(s: Store, chain: seq<IndexedBlock>, i: nat)
    requires Canonical(s, chain) && i < |chain|
    ensures chain[i].hash != ZERO_HASH
    ensures chain[i].header.previousHeaderHash == Before(chain, |chain| - i)
  {
    hide Replayed;
    assert CanonAt(s.db, BlockHashes(chain), i) && StoredBlock(s.db, chain[i]);
  }

  lemma {:induction false} NextBackDetermined(s: Store, chain: seq<IndexedBlock>, s': Store, chain': seq<IndexedBlock>, k: nat)
    requires Canonical(s, chain) && Canonical(s', chain') && 0 < k <= |chain| && k - 1 <= |chain'|
    requires s.db.blockHeader == s'.db.blockHeader && s.db.blockTransactions == s'.db.blockTransactions
    requires s.db.transaction == s'.db.transaction && s.best.hash == s'.best.hash
    requires chain[|chain| - (k - 1)..] == chain'[|chain'| - (k - 1)..]
    ensures k <= |chain'| && chain[|chain| - k..] == chain'[|chain'| - k..]
  {
    hide Replayed, Skeleton;
    PositionDetermined(s, chain, s', chain', k - 1);
    var b, b' := chain[|chain| - k], chain'[|chain'| - k];
    assert StoredBlock(s.db, b) && StoredBlock(s'.db, b');
    StoredBlockReads(s.db, b);
    StoredBlockReads(s'.db, b');
    SameReads(s.db, s'.db, TxHashes(b.transactions));
    assert chain[|chain| - k..] == [b] + chain[|chain| - (k - 1)..];
    assert chain'[|chain'| - k..] == [b'] + chain'[|chain'| - (k - 1)..];
  }

  lemma {:induction false} SameReads(db: Columns, db': Columns, hashes: seq<H256>)
    requires db.transaction == db'.transaction
    ensures FilterTransactions(db, hashes) == FilterTransactions(db', hashes)
    decreases |hashes|
  {
    if hashes != [] {
      SameReads(db, db', hashes[1..]);
    }
  }

  /** Two stores with the same blocks and the same best hash agree on every index, whatever
      sequence of insertions and reorganisations produced each of them. */
  lemma {:induction false} HistoryIndependence(s: Store, chain: seq<IndexedBlock>, s': Store, chain': seq<IndexedBlock>)
    requires Canonical(s, chain) && Canonical(s', chain')
    requires s.db.blockHeader == s'.db.blockHeader && s.db.blockTransactions == s'.db.blockTransactions
    requires s.db.transaction == s'.db.transaction && s.best.hash == s'.best.hash
    ensures s.best == s'.best && s.db.blockHash == s'.db.blockHash && s.db.blockNumber == s'.db.blockNumber
    ensures s.db.transactionMeta == s'.db.transactionMeta
  {
    ChainDetermined(s, chain, s', chain');
    SameSkeletonIndexes(s, s', BlockHashes(chain));
    IndexUnique(s.db.transactionMeta, s'.db.transactionMeta, ChainLog(chain), ChainSpends(chain));
  }
}
