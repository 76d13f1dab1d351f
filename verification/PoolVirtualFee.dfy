/** Reprioritising an entry (miner/src/memory_pool.rs:356-395). */
module PoolVirtualFee {
  import opened Primitives
  import O = PoolOrder
  import opened PoolGraph
  import opened PoolReferences

  function Shifted(a: Entry, change: int): Entry {
    a.(packageMinerVirtualFee := a.packageMinerVirtualFee + change)
  }

  function ShiftAll(pool: Pool, to: set<H256>, change: int): Pool {
    map h | h in pool :: if h in to then Shifted(pool[h], change) else pool[h]
  }

  /** The entry gets the new fee and its recorded ancestors the difference; the entry's own package
      total is left as it was. */
  function Reprioritized(pool: Pool, h: H256, fee: int): Pool
    requires h in pool
  {
    var change := fee - pool[h].minerVirtualFee;
    ShiftAll(pool[h := pool[h].(minerVirtualFee := fee)], if change == 0 then {} else pool[h].ancestors, change)
  }

  /** Same entries up to fees and package totals. */
  ghost predicate SameShape(pool: Pool, pool': Pool) {
    && pool.Keys == pool'.Keys
    && forall h :: h in pool ==> SameGraph(pool, pool', h) && SameFigures(pool[h], pool'[h])
  }

  ghost predicate SameFigures(a: Entry, b: Entry) {
    a.hash == b.hash && a.size == b.size && a.packageSize == b.packageSize && a.ancestors == b.ancestors
  }

  lemma {:induction false} ReprioritizedShape(pool: Pool, h: H256, fee: int)
    requires h in pool
    ensures SameShape(pool, Reprioritized(pool, h, fee))
  {
  }

  lemma {:induction false} ShapeOrdered(pool: Pool, pool': Pool)
    requires SameShape(pool, pool') && WellOrdered(pool)
    ensures WellOrdered(pool')
  {
    forall p, d | p in pool' && IsParent(pool', p, d)
      ensures pool'[p].storageIndex < pool'[d].storageIndex
    {
      assert SameGraph(pool, pool', d) && SameGraph(pool, pool', p) && IsParent(pool, p, d);
    }
  }

  lemma {:induction false} ShapeAncestors(pool: Pool, pool': Pool, h: H256, d: H256)
    requires SameShape(pool, pool') && WellOrdered(pool) && WellOrdered(pool') && d in pool
    ensures IsAncestor(pool, h, d) <==> IsAncestor(pool', h, d)
  {
    AncestorsLocal(pool, pool', h, d);
  }

  lemma {:induction false} ShapeAvailable(pool: Pool, pool': Pool, live: set<H256>)
    requires SameShape(pool, pool')
    ensures Available(pool, live) == Available(pool', live)
  {
  }

  /** Reprioritising keeps package totals exact if and only if the fee does not change. */
  lemma {:induction false} VirtualFeeKeepsPackagesIff(pool: Pool, h: H256, fee: int)
    requires WellOrdered(pool) && AncestorsExact(pool) && PackagesExact(pool) && h in pool
    ensures WellOrdered(Reprioritized(pool, h, fee))
    ensures PackagesExact(Reprioritized(pool, h, fee)) <==> fee == pool[h].minerVirtualFee
  {
    hide PackageExact, AncestorsExact, SameShape, WellOrdered;
    var pool' := Reprioritized(pool, h, fee);
    ReprioritizedShape(pool, h, fee);
    ShapeOrdered(pool, pool');
    if fee == pool[h].minerVirtualFee {
      assert pool' == pool;
    } else {
      OwnPackageStale(pool, h, fee);
    }
  }

  lemma {:induction false} OwnPackageStale(pool: Pool, h: H256, fee: int)
    requires WellOrdered(pool) && AncestorsExact(pool) && PackagesExact(pool) && h in pool && fee != pool[h].minerVirtualFee
    requires SameShape(pool, Reprioritized(pool, h, fee)) && WellOrdered(Reprioritized(pool, h, fee))
    ensures !PackageExact(Reprioritized(pool, h, fee), h)
  {
    var pool' := Reprioritized(pool, h, fee);
    var ds := Descendants(pool, h);
    forall d | d in pool
      ensures d in Descendants(pool', h) <==> d in ds
    {
      ShapeAncestors(pool, pool', h, d);
    }
    NotOwnAncestor(pool, h);
    assert Descendants(pool', h) == ds;
    SumAgrees(VirtualFees(pool), VirtualFees(pool'), ds);
    assert PackageExact(pool, h);
  }

  lemma {:induction false} NotOwnAncestor(pool: Pool, h: H256)
    requires WellOrdered(pool)
    ensures !IsAncestor(pool, h, h)
  {
    if IsAncestor(pool, h, h) {
      AncestorInPool(pool, h, h);
    }
  }

  /** `set_virtual_fee` on entries and orderings. */
  method SetVirtualFee(byHash: Pool, refs: References, h: H256, fee: int, ghost hs: set<H256>)
    returns (byHash': Pool, refs': References)
    requires Labelled(byHash) && h in byHash && Orders(refs, byHash, hs)
    ensures byHash' == Reprioritized(byHash, h, fee)
    ensures Orders(refs', byHash', hs) && refs'.byInput == refs.byInput && refs'.pending == refs.pending
  {
    var entry := byHash[h];
    var changed := entry.(minerVirtualFee := fee);
    var change := fee - entry.minerVirtualFee;
    byHash', refs' := byHash[h := changed], refs;
    refs' := Rekeyed(refs', byHash, h, changed, hs);
    var left := if change == 0 then {} else entry.ancestors;
    ghost var to, done := left, {};
    assert ShiftAll(byHash', done, change) == byHash';
    while left != {}
      invariant done + left == to && done !! left
      invariant byHash' == ShiftAll(byHash[h := changed], done, change) && Labelled(byHash')
      invariant Orders(refs', byHash', hs) && refs'.byInput == refs.byInput && refs'.pending == refs.pending
    {
      hide Orders;
      var a :| a in left;
      left := left - {a};
      if a in byHash' {
        var x := Shifted(byHash'[a], change);
        refs' := Rekeyed(refs', byHash', a, x, hs);
        byHash' := byHash'[a := x];
      }
      done := done + {a};
    }
  }

  /** Replaces the keys of entry `a` by those of `x` in the two score orderings that hold it. */
  method Rekeyed(refs: References, pool: Pool, a: H256, x: Entry, ghost hs: set<H256>) returns (refs': References)
    requires Labelled(pool) && a in pool && Orders(refs, pool, hs)
    requires x.hash == a && x.storageIndex == pool[a].storageIndex
    ensures Orders(refs', pool[a := x], hs) && refs'.byInput == refs.byInput && refs'.pending == refs.pending
  {
    forall strategy: Strategy
      ensures refs.Ordered(strategy) == Keys(strategy, pool, hs)
    {
    }
    assert Keys(ByTimestamp, pool, hs) == Keys(ByTimestamp, pool[a := x], hs);
    KeysUpdate(ByTransactionScore, pool, hs, a, x);
    KeysUpdate(ByPackageScore, pool, hs, a, x);
    assert refs.Ordered(ByTransactionScore) == refs.byTransactionScore && refs.Ordered(ByPackageScore) == refs.byPackageScore;
    var inPackage := O.Contains(refs.byPackageScore, KeyOf(ByPackageScore, pool[a]));
    var inScore := O.Contains(refs.byTransactionScore, KeyOf(ByTransactionScore, pool[a]));
    var byPackage := O.Remove(refs.byPackageScore, KeyOf(ByPackageScore, pool[a]));
    var byScore := O.Remove(refs.byTransactionScore, KeyOf(ByTransactionScore, pool[a]));
    if inScore {
      byScore := O.Insert(byScore, KeyOf(ByTransactionScore, x));
    }
    if inPackage {
      byPackage := O.Insert(byPackage, KeyOf(ByPackageScore, x));
    }
    refs' := refs.(byTransactionScore := byScore, byPackageScore := byPackage);
    assert refs.Ordered(ByTimestamp) == refs.byStorageIndex;
  }
}
