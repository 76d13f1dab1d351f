/** Pools on which package totals go wrong: the two cases that the exact conditions for removal and
    reprioritisation shut out. */
module PoolExamples {
  import opened Primitives
  import opened Chain
  import opened PoolGraph
  import opened PoolSpends
  import opened MemoryPools

  function Spending(hash: H256): Transaction {
    Transaction(1, [TransactionInput(OutPoint(hash, 0), [], 0, [])], [TransactionOutput(5, [])], 0)
  }

  lemma {:induction false} SpendingInputs(hash: H256)
    ensures InputHashes(Spending(hash)) == {hash} && PrevOuts(Spending(hash)) == {OutPoint(hash, 0)}
    ensures forall pool: Pool | hash in pool ==> |pool[hash].transaction.outputs| == 1 :: WellFormed(pool, Spending(hash))
  {
    assert Spending(hash).inputs[0].previousOutput == OutPoint(hash, 0);
  }

  /** An output that no entry spends is not indexed as spent. */
  lemma {:induction false} FreeOutput(s: Storage, o: OutPoint)
    requires s.Valid() && forall h :: h in s.byHash ==> o !in PrevOuts(s.byHash[h].transaction)
    ensures o !in s.byPreviousOutput
  {
  }

  const PARENT: Entry := NewEntry(1, Spending(9), {}, 100, 1, 10)

  lemma {:induction false} ParentArrives()
    ensures RecordedAncestors(map[], Spending(9)) == {} && Arrived(map[], PARENT) == map[1 := PARENT]
    ensures RecordedAncestors(map[1 := PARENT], Spending(1)) == {1}
  {
    SpendingInputs(1);
  }

  /** One entry of size 100 and fee 10. */
  method OneEntry() returns (pool: Storage)
    ensures fresh(pool) && pool.Valid() && pool.Packages() && pool.byHash == map[1 := PARENT] && pool.counter == 1
    ensures pool.seen.Keys == {1} && pool.references.byInput.Keys == {9}
  {
    hide AncestorsExact, PackagesExact, Consistent, RecordedAncestors, Arrived;
    pool := new Storage();
    SpendingInputs(9);
    ParentArrives();
    FreeOutput(pool, OutPoint(9, 0));
    var taken := pool.InsertVerified(1, Spending(9), 100, 10, false);
  }

  /** The entry and its child of size 50 and fee 20. */
  method ParentAndChild() returns (pool: Storage)
    ensures fresh(pool) && pool.Valid() && pool.Packages() && pool.byHash.Keys == {1, 2}
    ensures pool.byHash[1] == PARENT.(packageSize := 150, packageMinerFee := 30) && pool.byHash[2].transaction == Spending(1)
  {
    hide AncestorsExact, PackagesExact, Consistent, RecordedAncestors;
    pool := OneEntry();
    SpendingInputs(9);
    SpendingInputs(1);
    ParentArrives();
    FreeOutput(pool, OutPoint(1, 0));
    var taken := pool.InsertVerified(2, Spending(1), 50, 20, false);
  }

  /** Removing the child leaves the parent with the package total of both. */
  method RemovedChild() returns (pool: Storage)
    ensures fresh(pool) && pool.Valid() && pool.byHash.Keys == {1}
    ensures pool.byHash[1].size == 100 && pool.byHash[1].packageSize == 150
    ensures pool.byHash[1].minerFee == 10 && pool.byHash[1].packageMinerFee == 30
    ensures !PackagesExact(pool.byHash)
  {
    hide AncestorsExact, PackagesExact, Consistent;
    pool := ParentAndChild();
    SpendingInputs(1);
    assert 1 in InputHashes(pool.byHash[2].transaction) * pool.byHash.Keys;
    var removed := pool.RemoveByHash(2);
  }

  /** A virtual fee on a lone entry is not in its own package total. */
  method Reprioritised() returns (pool: Storage)
    ensures fresh(pool) && pool.Valid() && pool.byHash.Keys == {1}
    ensures pool.byHash[1].minerVirtualFee == 7 && pool.byHash[1].packageMinerVirtualFee == 0
    ensures !PackagesExact(pool.byHash)
  {
    hide AncestorsExact, PackagesExact, Consistent;
    pool := OneEntry();
    pool.SetVirtualFee(1, 7);
  }
}
