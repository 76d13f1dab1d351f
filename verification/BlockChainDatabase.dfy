/** The chain store as the object the node drives: every method updates the fields in place and is
    proved to make exactly the transition of module ChainStore (db/src/block_chain_db.rs). */
module BlockChainDatabases {
  import opened Primitives
  import opened Chain
  import opened TransactionMetas
  import opened KeyValue
  import opened Overlay
  import opened SpentIndex
  import CS = ChainStore
  import opened SideChains

  type Outcome = Result<(), Error>

  /** Marks the inputs of one transaction in `modified`, fetching records from `stored` on first use. */
  method MarkTransaction(stored: Metas, modified: Metas, inputs: seq<TransactionInput>, used: bool, missing: Error)
    returns (r: Result<Metas, Error>)
    ensures var goal := MarkInputs(stored + modified, inputs, used, missing);
            if r.Ok? then goal == Ok(stored + r.value) else goal == Err(r.error)
    ensures r.Ok? ==> modified.Keys <= r.value.Keys
  {
    var cur, k := modified, 0;
    while k < |inputs|
      invariant 0 <= k <= |inputs|
      invariant MarkInputs(stored + modified, inputs, used, missing) == MarkInputs(stored + cur, inputs[k..], used, missing)
      invariant modified.Keys <= cur.Keys
    {
      var o := inputs[k].previousOutput;
      if o.hash !in cur && o.hash !in stored {
        return Err(missing);
      }
      var meta := if o.hash in cur then cur[o.hash] else stored[o.hash];
      var marked := meta.Denote(o.index, used);
      if marked.None? {
        return Err(OutputOutOfRange);
      }
      assert stored + cur[o.hash := marked.value] == (stored + cur)[o.hash := marked.value];
      cur := cur[o.hash := marked.value];
      k := k + 1;
      assert inputs[k - 1..][1..] == inputs[k..];
    }
    r := Ok(cur);
  }

  /** The records a canonization writes. */
  method CanonizedMetas(stored: Metas, height: nat, txs: seq<IndexedTransaction>) returns (r: Result<Metas, Error>)
    ensures var goal := CanonizeMetas(stored, height, txs);
            if r.Ok? then goal == Ok(stored + r.value) else goal == Err(r.error)
  {
    var modified: Metas := map[];
    if txs != [] {
      modified := map[txs[0].hash := NewCoinbase(height, |txs[0].raw.outputs|)];
      assert stored + modified == stored[txs[0].hash := NewCoinbase(height, |txs[0].raw.outputs|)];
      var j := 1;
      while j < |txs|
        invariant 1 <= j <= |txs|
        invariant CanonizeMetas(stored, height, txs) == CanonizeRest(stored + modified, height, txs[j..])
      {
        var tx := txs[j];
        var fresh' := modified[tx.hash := New(height, |tx.raw.outputs|)];
        assert stored + fresh' == (stored + modified)[tx.hash := New(height, |tx.raw.outputs|)];
        assert txs[j..][1..] == txs[j + 1..];
        modified :- MarkTransaction(stored, fresh', tx.raw.inputs, true, CannotCanonize);
        j := j + 1;
      }
    } else {
      assert stored + modified == stored;
    }
    r := Ok(modified);
  }

  /** The records a decanonization rewrites before it deletes the block's own. */
  method ReleasedMetas(stored: Metas, txs: seq<IndexedTransaction>) returns (r: Result<Metas, Error>)
    ensures var goal := ReleaseRest(stored, if txs == [] then [] else txs[1..]);
            if r.Ok? then goal == Ok(stored + r.value) else goal == Err(r.error)
  {
    var modified: Metas := map[];
    assert stored + modified == stored;
    ghost var rest := if txs == [] then [] else txs[1..];
    var j := 1;
    while j < |txs|
      invariant 1 <= j && (txs != [] ==> j <= |txs|)
      invariant ReleaseRest(stored, rest) == ReleaseRest(stored + modified, if txs == [] then [] else txs[j..])
    {
      assert txs[j..][1..] == txs[j + 1..];
      modified :- MarkTransaction(stored, modified, txs[j].raw.inputs, false, CannotDecanonize);
      j := j + 1;
    }
    r := Ok(modified);
  }

  /** Lists the remembered operations in whatever order the hash maps give their keys. */
  method DrainTransaction(overlay: map<Key, Operation>) returns (update: seq<Operation>, ghost keys: seq<Key>)
    ensures |update| == |overlay| && forall k :: k in overlay ==> overlay[k] in update
    ensures forall k :: k in keys <==> k in overlay
    ensures update == Drain(overlay, keys)
  {
    update, keys := [], [];
    var left := overlay.Keys;
    while left != {}
      invariant left <= overlay.Keys && (forall k :: k in keys <==> k in overlay.Keys - left)
      invariant forall i :: 0 <= i < |keys| ==> keys[i] in overlay
      invariant update == Drain(overlay, keys) && |update| + |left| == |overlay|
      invariant forall k :: k in overlay.Keys - left ==> overlay[k] in update
    {
      var k :| k in left;
      update := update + [overlay[k]];
      keys := keys + [k];
      left := left - {k};
    }
  }

  class BlockChainDatabase {
    var best: CS.BestBlock
    var db: Columns
    /** The last operation on each key written through this handle; a fork flushes them into its origin. */
    var overlay: map<Key, Operation>
    ghost var written: seq<Operation>
    ghost const base: Columns

    ghost predicate Valid()
      reads this
    {
      db == ApplyAll(base, written) && overlay == Remember(written)
    }

    function State(): CS.Store
      reads this
    {
      CS.Store(best, db)
    }

    constructor Open(columns: Columns)
      requires CS.Open(columns).Ok?
      ensures Valid() && base == columns && written == []
      ensures State() == CS.Open(columns).value
    {
      best := if columns.bestHash.Some? then CS.BestBlock(columns.bestNumber.value, columns.bestHash.value) else CS.NO_BLOCKS;
      db := columns;
      overlay := map[];
      written := [];
      base := columns;
    }

    method Write(update: seq<Operation>)
      requires Valid()
      modifies this`db, this`overlay, this`written
      ensures Valid() && db == ApplyAll(old(db), update) && written == old(written) + update
    {
      for i := 0 to |update|
        invariant db == ApplyAll(old(db), update[..i]) && written == old(written) + update[..i] && overlay == Remember(written)
      {
        hide Apply, ApplyAll, KeyOf, Remember;
        assert update[..i + 1] == update[..i] + [update[i]];
        ApplyAllSnoc(old(db), update[..i], update[i]);
        RememberSnoc(written, update[i]);
        db := Apply(db, update[i]);
        overlay := overlay[KeyOf(update[i]) := update[i]];
        written := written + [update[i]];
        assert old(written) + update[..i] + [update[i]] == old(written) + update[..i + 1];
      }
      assert update[..|update|] == update;
      ApplyAllConcat(base, old(written), update);
    }

    method Insert(block: IndexedBlock) returns (r: Outcome)
      requires Valid()
      modifies this
      ensures Valid()
      ensures var s := CS.Insert(old(State()), block);
              if s.Ok? then r == Ok(()) && State() == s.value else r == Err(s.error) && State() == old(State())
    {
      hide Remember, ApplyAll;
      if block.hash in db.blockHeader {
        return Ok(());
      }
      var parent := block.header.previousHeaderHash;
      if parent !in db.blockHeader && parent != ZERO_HASH {
        return Err(UnknownParent);
      }
      var update := [InsertBlockHeader(block.hash, block.header),
                     InsertBlockTransactions(block.hash, TxHashes(block.transactions))];
      ApplyTwo(db, update[0], update[1]);
      update := AppendTransactions(update, block.transactions);
      Write(update);
      r := Ok(());
    }

    /** Appends the insertion of every transaction of a block. */
    method AppendTransactions(update: seq<Operation>, txs: seq<IndexedTransaction>) returns (more: seq<Operation>)
      ensures var after := ApplyAll(db, update);
              ApplyAll(db, more) == after.(transaction := CS.AddTransactions(after.transaction, txs))
    {
      hide ApplyAll;
      ghost var after := ApplyAll(db, update);
      more := update;
      for i := 0 to |txs|
        invariant ApplyAll(db, more) == after.(transaction := CS.AddTransactions(after.transaction, txs[..i]))
      {
        ApplyAllSnoc(db, more, InsertTransaction(txs[i].hash, txs[i].raw));
        assert txs[..i + 1][..i] == txs[..i];
        more := more + [InsertTransaction(txs[i].hash, txs[i].raw)];
      }
      assert txs[..|txs|] == txs;
    }

    /** Appends the insertion of every modified record, in whatever order the hash map lists them. */
    method AppendMetas(update: seq<Operation>, modified: Metas) returns (more: seq<Operation>)
      ensures var after := ApplyAll(db, update);
              ApplyAll(db, more) == after.(transactionMeta := after.transactionMeta + modified)
    {
      hide ApplyAll;
      ghost var after := ApplyAll(db, update);
      more := update;
      var left := modified.Keys;
      assert after.transactionMeta + (modified - left) == after.transactionMeta;
      while left != {}
        invariant left <= modified.Keys
        invariant ApplyAll(db, more) == after.(transactionMeta := after.transactionMeta + (modified - left))
      {
        var h :| h in left;
        ApplyAllSnoc(db, more, InsertTransactionMeta(h, modified[h]));
        MergeStep(after.transactionMeta, modified, left, h);
        more := more + [InsertTransactionMeta(h, modified[h])];
        left := left - {h};
      }
      assert modified - left == modified;
    }

    /** Appends the deletion of the metas of `txs`. */
    method AppendDeletions(update: seq<Operation>, txs: seq<IndexedTransaction>) returns (more: seq<Operation>)
      ensures var after := ApplyAll(db, update);
              ApplyAll(db, more) == after.(transactionMeta := after.transactionMeta - HashSet(txs))
    {
      hide ApplyAll;
      ghost var after := ApplyAll(db, update);
      more := update;
      assert after.transactionMeta - HashSet(txs[..0]) == after.transactionMeta;
      for i := 0 to |txs|
        invariant ApplyAll(db, more) == after.(transactionMeta := after.transactionMeta - HashSet(txs[..i]))
      {
        ApplyAllSnoc(db, more, DeleteTransactionMeta(txs[i].hash));
        HashSetSnoc(txs, i);
        assert after.transactionMeta - HashSet(txs[..i + 1]) == after.transactionMeta - HashSet(txs[..i]) - {txs[i].hash};
        more := more + [DeleteTransactionMeta(txs[i].hash)];
      }
      assert txs[..|txs|] == txs;
    }

    method Canonize(hash: H256) returns (r: Outcome)
      requires Valid()
      modifies this
      ensures Valid()
      ensures var s := CS.Canonize(old(State()), hash);
              if s.Ok? then r == Ok(()) && State() == s.value else r == Err(s.error) && State() == old(State())
    {
      var read := CS.ReadBlock(db, hash);
      if read.None? {
        return Err(CannotCanonize);
      }
      var block := read.value;
      if best.hash != block.header.previousHeaderHash {
        return Err(CannotCanonize);
      }
      if block.header.previousHeaderHash == ZERO_HASH && best.number != 0 {
        return Err(AssertionFailed);
      }
      var number := if block.header.previousHeaderHash == ZERO_HASH then 0 else best.number + 1;
      var update := [InsertBlockHash(number, hash), InsertBlockNumber(hash, number),
                     InsertBestHash(hash), InsertBestNumber(number)];
      var modified := CanonizedMetas(db.transactionMeta, number, block.transactions);
      if modified.Err? {
        return Err(modified.error);
      }
      ApplyFour(db, update[0], update[1], update[2], update[3]);
      update := AppendMetas(update, modified.value);
      Write(update);
      best := CS.BestBlock(number, hash);
      r := Ok(());
    }

    method Decanonize() returns (r: Result<H256, Error>)
      requires Valid()
      modifies this
      ensures Valid()
      ensures var s := CS.Decanonize(old(State()));
              if s.Ok? then r == Ok(s.value.1) && State() == s.value.0 else r == Err(s.error) && State() == old(State())
    {
      hide ReleaseRest, CS.ReadBlock, ApplyAll;
      var read := CS.ReadBlock(db, best.hash);
      if read.None? {
        return Err(CannotDecanonize);
      }
      var block, gone := read.value, best.hash;
      var parent := block.header.previousHeaderHash;
      if best.number == 0 && parent != ZERO_HASH {
        return Err(AssertionFailed);
      }
      var newBest := CS.BestBlock(if best.number > 0 then best.number - 1 else 0, parent);
      var update := [DeleteBlockHash(best.number), DeleteBlockNumber(gone),
                     InsertBestHash(newBest.hash), InsertBestNumber(newBest.number)];
      var modified := ReleasedMetas(db.transactionMeta, block.transactions);
      if modified.Err? {
        return Err(modified.error);
      }
      ApplyFour(db, update[0], update[1], update[2], update[3]);
      update := AppendMetas(update, modified.value);
      update := AppendDeletions(update, block.transactions);
      Write(update);
      best := newBest;
      r := Ok(gone);
    }

    /** Appends the deletion of the listed transactions. */
    method AppendRemovals(update: seq<Operation>, listed: seq<H256>) returns (more: seq<Operation>)
      ensures var after := ApplyAll(db, update);
              ApplyAll(db, more) == after.(transaction := after.transaction - CS.Members(listed))
    {
      hide ApplyAll;
      ghost var after := ApplyAll(db, update);
      more := update;
      assert after.transaction - CS.Members(listed[..0]) == after.transaction;
      for i := 0 to |listed|
        invariant ApplyAll(db, more) == after.(transaction := after.transaction - CS.Members(listed[..i]))
      {
        ApplyAllSnoc(db, more, DeleteTransaction(listed[i]));
        assert CS.Members(listed[..i + 1]) == CS.Members(listed[..i]) + {listed[i]};
        assert after.transaction - CS.Members(listed[..i + 1]) == after.transaction - CS.Members(listed[..i]) - {listed[i]};
        more := more + [DeleteTransaction(listed[i])];
      }
      assert listed[..|listed|] == listed;
    }

    method RollbackBest() returns (r: Result<H256, Error>)
      requires Valid()
      modifies this
      ensures Valid()
      ensures var s := CS.RollbackBest(old(State()));
              if s.Ok? then r == Ok(s.value.1) && State() == s.value.0 else r == Err(s.error) && State() == old(State())
    {
      hide CS.Decanonize;
      var listed := CS.BlockTransactionHashes(db, best.hash);
      var gone := Decanonize();
      if gone.Err? {
        return gone;
      }
      var update := [DeleteBlockHeader(gone.value), DeleteBlockTransactions(gone.value)];
      ApplyTwo(db, update[0], update[1]);
      update := AppendRemovals(update, listed);
      Write(update);
      r := Ok(best.hash);
    }

    /** Runs the two routes on an overlay; this store is not touched. */
    method Fork(origin: CS.SideChainOrigin) returns (r: Result<BlockChainDatabase, Error>)
      requires CS.Open(db).Ok?
      ensures var s := CS.Fork(State(), origin);
              if s.Ok? then r.Ok? && fresh(r.value) && r.value.Valid() && r.value.base == db && r.value.State() == s.value
              else r == Err(s.error)
    {
      var overlay := new BlockChainDatabase.Open(db);
      ghost var start := overlay.State();
      var route := origin.decanonizedRoute;
      while route != []
        invariant overlay.Valid() && overlay.base == db && route <= origin.decanonizedRoute
        invariant CS.DecanonizeRoute(start, origin.decanonizedRoute) == CS.DecanonizeRoute(overlay.State(), route)
        decreases |route|
      {
        var gone := overlay.Decanonize();
        if gone.Err? {
          return Err(gone.error);
        }
        if gone.value != route[|route| - 1] {
          return Err(AssertionFailed);
        }
        route := route[..|route| - 1];
      }
      ghost var undone := overlay.State();
      var i := 0;
      while i < |origin.canonizedRoute|
        invariant overlay.Valid() && overlay.base == db && 0 <= i <= |origin.canonizedRoute|
        invariant CS.CanonizeRoute(undone, origin.canonizedRoute) == CS.CanonizeRoute(overlay.State(), origin.canonizedRoute[i..])
      {
        var done := overlay.Canonize(origin.canonizedRoute[i]);
        if done.Err? {
          return Err(done.error);
        }
        i := i + 1;
        assert origin.canonizedRoute[i - 1..][1..] == origin.canonizedRoute[i..];
      }
      r := Ok(overlay);
    }

    /** Takes over the fork's best block and flushes its writes into this store. If the store has not
        moved since the fork was opened on it, it now equals the fork. */
    method SwitchToFork(fork: BlockChainDatabase)
      requires Valid() && fork.Valid() && fork != this
      modifies this
      ensures Valid() && best == fork.best && db == ApplyAll(old(db), fork.written)
      ensures old(db) == fork.base ==> State() == fork.State()
    {
      best := fork.best;
      var update, keys := DrainTransaction(fork.overlay);
      FlushInstallsCopy(db, fork.written, keys);
      Write(update);
    }

    method IsSpent(prevout: OutPoint) returns (spent: bool)
      ensures spent == SpentIndex.IsSpent(db.transactionMeta, prevout)
    {
      if prevout.hash !in db.transactionMeta {
        return false;
      }
      var flag := db.transactionMeta[prevout.hash].IsSpent(prevout.index);
      spent := if flag.Some? then flag.value else false;
    }

    /** Walks the header's ancestors back to the canonical chain. */
    method BlockOrigin(hash: H256, parent: H256) returns (r: Result<CS.BlockOrigin, Error>)
      ensures r == OriginOf(State(), hash, parent)
    {
      if !(best.number in db.blockHash && db.blockHash[best.number] == best.hash) {
        return Err(AssertionFailed);
      }
      if hash in db.blockHeader {
        return Ok(CS.KnownBlock);
      }
      if best.hash == parent {
        return Ok(CS.CanonChain(best.number + 1));
      }
      if parent !in db.blockHeader {
        return Err(UnknownParent);
      }
      var walk := WalkSideChain(parent);
      match walk
      case TooLong =>
        return Err(AncientFork);
      case Orphan =>
        return Err(AssertionFailed);
      case Reached(route, anchor) =>
        var number := db.blockNumber[anchor];
        var undone := CanonHashes(number + 1);
        var o := CS.SideChainOrigin(number, route, undone, number + |route| + 1);
        if o.blockNumber > best.number {
          return Ok(CS.SideChainBecomingCanonChain(o));
        }
        return Ok(CS.SideChain(o));
    }

    /** The loop over the header's ancestors. */
    method WalkSideChain(parent: H256) returns (walk: Walk)
      ensures walk == WalkBack(db, parent, CS.MAX_FORK_ROUTE_PRESET)
    {
      var route: seq<H256> := [];
      var next := parent;
      for forkLen := 0 to CS.MAX_FORK_ROUTE_PRESET
        invariant WalkBack(db, parent, CS.MAX_FORK_ROUTE_PRESET) ==
                  Extended(WalkBack(db, next, CS.MAX_FORK_ROUTE_PRESET - forkLen), Reversed(route))
      {
        if next in db.blockNumber {
          assert [] + Reversed(route) == Reversed(route);
          return Reached(Reversed(route), next);
        }
        if next !in db.blockHeader {
          return Orphan;
        }
        var previous := db.blockHeader[next].previousHeaderHash;
        ReversedSnoc(route, next);
        ExtendedTwice(WalkBack(db, previous, CS.MAX_FORK_ROUTE_PRESET - forkLen - 1), [next], Reversed(route));
        route := route + [next];
        next := previous;
      }
      walk := TooLong;
    }

    /** Canonical hashes from height `from` to the best block. */
    method CanonHashes(from: nat) returns (hashes: seq<H256>)
      ensures hashes == IndexedHashes(db, from, best.number + 1)
    {
      hashes := [];
      var n := from;
      while n < best.number + 1
        invariant from <= n && (n == from || n <= best.number + 1) && hashes == IndexedHashes(db, from, n)
      {
        if n in db.blockHash {
          hashes := hashes + [db.blockHash[n]];
        }
        n := n + 1;
      }
    }
  }

  lemma {:induction false} ExtendedTwice(w: Walk, older: seq<H256>, newer: seq<H256>)
    ensures Extended(Extended(w, older), newer) == Extended(w, older + newer)
  {
    if w.Reached? {
      assert w.route + older + newer == w.route + (older + newer);
    }
  }

  lemma {:induction false} ReversedSnoc(s: seq<H256>, h: H256)
    ensures Reversed(s + [h]) == [h] + Reversed(s)
  {
  }

  lemma {:induction false} HashSetSnoc(txs: seq<IndexedTransaction>, i: nat)
    requires i < |txs|
    ensures HashSet(txs[..i + 1]) == HashSet(txs[..i]) + {txs[i].hash}
  {
  }

  lemma {:induction false} MergeStep(m: Metas, modified: Metas, left: set<H256>, h: H256)
    requires h in left && h in modified
    ensures m + (modified - (left - {h})) == (m + (modified - left))[h := modified[h]]
  {
  }

  lemma {:induction false} ApplyTwo(db: Columns, a: Operation, b: Operation)
    ensures ApplyAll(db, [a, b]) == Apply(Apply(db, a), b)
  {
    ApplyAllSnoc(db, [], a);
    ApplyAllSnoc(db, [a], b);
    assert [] + [a] == [a] && [a] + [b] == [a, b];
  }

  lemma {:induction false} ApplyFour(db: Columns, a: Operation, b: Operation, c: Operation, d: Operation)
    ensures ApplyAll(db, [a, b, c, d]) == Apply(Apply(Apply(Apply(db, a), b), c), d)
  {
    ApplyTwo(db, a, b);
    ApplyTwo(Apply(Apply(db, a), b), c, d);
    ApplyAllConcat(db, [a, b], [c, d]);
    assert [a, b] + [c, d] == [a, b, c, d];
  }
}
