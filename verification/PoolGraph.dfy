/** The dependency graph of the pool: parents, ancestors, descendants and package totals
    (miner/src/memory_pool.rs:52-75, 568-573, 788-799). */
module PoolGraph {
  import opened Primitives
  import opened Chain
  import opened PoolOrder

  datatype Entry = Entry(
    transaction: Transaction,
    ancestors: set<H256>,
    hash: H256,
    size: nat,
    storageIndex: nat,
    minerFee: nat,
    minerVirtualFee: int,
    packageSize: nat,
    packageMinerFee: nat,
    packageMinerVirtualFee: int)

  type Pool = map<H256, Entry>

  datatype Strategy = ByTimestamp | ByTransactionScore | ByPackageScore

  function KeyOf(strategy: Strategy, e: Entry): OrderKey {
    match strategy
    case ByTimestamp => TimeKey(e.hash, e.storageIndex)
    case ByTransactionScore => ScoreKey(e.hash, e.size, e.minerFee, e.minerVirtualFee)
    case ByPackageScore => ScoreKey(e.hash, e.packageSize, e.packageMinerFee, e.packageMinerVirtualFee)
  }

  // ---------------------------------------------------------------------------------------------
  // Parents.

  function HashesOf(inputs: seq<TransactionInput>): set<H256> {
    set k | 0 <= k < |inputs| :: inputs[k].previousOutput.hash
  }

  function InputHashes(tx: Transaction): set<H256> {
    HashesOf(tx.inputs)
  }

  lemma {:induction false} HashesOfSnoc(inputs: seq<TransactionInput>, k: nat)
    requires k < |inputs|
    ensures HashesOf(inputs[..k + 1]) == HashesOf(inputs[..k]) + {inputs[k].previousOutput.hash}
  {
  }

  /** `has_in_pool_ancestors`: some input comes from a live transaction. */
  predicate HasLiveParent(tx: Transaction, live: set<H256>) {
    exists k :: 0 <= k < |tx.inputs| && tx.inputs[k].previousOutput.hash in live
  }

  lemma {:induction false} LiveParents(tx: Transaction, live: set<H256>)
    ensures HasLiveParent(tx, live) <==> InputHashes(tx) * live != {}
  {
    if HasLiveParent(tx, live) {
      var k :| 0 <= k < |tx.inputs| && tx.inputs[k].previousOutput.hash in live;
      assert tx.inputs[k].previousOutput.hash in InputHashes(tx) * live;
    }
    if InputHashes(tx) * live != {} {
      var h :| h in InputHashes(tx) * live;
    }
  }

  ghost predicate IsParent(pool: Pool, p: H256, d: H256) {
    d in pool && p in InputHashes(pool[d].transaction)
  }

  /** The live entries none of whose parents is live. */
  ghost function Available(pool: Pool, live: set<H256>): set<H256> {
    set h | h in live && h in pool && !HasLiveParent(pool[h].transaction, live)
  }

  /** Hashes label entries, sizes are positive, and every transaction arrived after its parents. */
  ghost predicate WellOrdered(pool: Pool) {
    && (forall h :: h in pool ==> pool[h].hash == h && pool[h].size > 0 && pool[h].packageSize > 0)
    && (forall p, d :: p in pool && IsParent(pool, p, d) ==> pool[p].storageIndex < pool[d].storageIndex)
  }

  /** Some live entry is always available. */
  lemma {:induction false} SomethingAvailable(pool: Pool, live: set<H256>, h: H256)
    requires WellOrdered(pool) && live <= pool.Keys && h in live
    ensures Available(pool, live) != {}
    decreases pool[h].storageIndex
  {
    if HasLiveParent(pool[h].transaction, live) {
      var k :| 0 <= k < |pool[h].transaction.inputs| && pool[h].transaction.inputs[k].previousOutput.hash in live;
      var p := pool[h].transaction.inputs[k].previousOutput.hash;
      assert IsParent(pool, p, h);
      SomethingAvailable(pool, live, p);
    } else {
      assert h in Available(pool, live);
    }
  }

  // ---------------------------------------------------------------------------------------------
  // Ancestors and descendants.

  /** `h` is a parent of `d`, or of an in-pool ancestor of `d`, with every link inside the pool. */
  ghost predicate IsAncestor(pool: Pool, h: H256, d: H256)
    requires WellOrdered(pool)
    decreases if d in pool then pool[d].storageIndex + 1 else 0
  {
    exists p :: p in pool && IsParent(pool, p, d) && (h == p || IsAncestor(pool, h, p))
  }

  ghost function Descendants(pool: Pool, h: H256): set<H256>
    requires WellOrdered(pool)
  {
    set d | d in pool && IsAncestor(pool, h, d)
  }

  lemma {:induction false} AncestorInPool(pool: Pool, h: H256, d: H256)
    requires WellOrdered(pool) && IsAncestor(pool, h, d)
    ensures h in pool && d in pool && pool[h].storageIndex < pool[d].storageIndex
    decreases if d in pool then pool[d].storageIndex + 1 else 0
  {
    var p :| p in pool && IsParent(pool, p, d) && (h == p || IsAncestor(pool, h, p));
    if h != p {
      AncestorInPool(pool, h, p);
    }
  }

  /** Two pools with the same transactions on `ks` and the same parents there relate them alike. */
  ghost predicate SameGraph(pool: Pool, pool': Pool, d: H256) {
    d in pool && d in pool' && pool[d].transaction == pool'[d].transaction && pool[d].storageIndex == pool'[d].storageIndex
  }

  /** Adding entries that no old entry spends from, or removing them, keeps old relations. `rest` is
      the smaller pool: none of the other entries is a parent of one in it. */
  lemma {:induction false} AncestorsLocal(pool: Pool, rest: Pool, h: H256, d: H256)
    requires WellOrdered(pool) && WellOrdered(rest) && rest.Keys <= pool.Keys && d in rest
    requires forall x :: x in rest ==> SameGraph(pool, rest, x)
    requires forall p, x :: p in pool && x in rest && IsParent(pool, p, x) ==> p in rest
    ensures IsAncestor(pool, h, d) <==> IsAncestor(rest, h, d)
    decreases pool[d].storageIndex
  {
    assert SameGraph(pool, rest, d);
    if IsAncestor(pool, h, d) {
      var p :| p in pool && IsParent(pool, p, d) && (h == p || IsAncestor(pool, h, p));
      assert IsParent(rest, p, d);
      if h != p {
        AncestorsLocal(pool, rest, h, p);
      }
    }
    if IsAncestor(rest, h, d) {
      var p :| p in rest && IsParent(rest, p, d) && (h == p || IsAncestor(rest, h, p));
      assert IsParent(pool, p, d);
      if h != p {
        AncestorsLocal(pool, rest, h, p);
      }
    }
  }

  /** Removing a descendant-closed set keeps the relations among the others. */
  lemma {:induction false} AncestorsOutside(pool: Pool, gone: set<H256>, h: H256, d: H256)
    requires WellOrdered(pool) && WellOrdered(pool - gone)
    requires forall p, x :: p in gone && x in pool && IsParent(pool, p, x) ==> x in gone
    requires d in pool && d !in gone
    ensures IsAncestor(pool - gone, h, d) <==> IsAncestor(pool, h, d)
  {
    var rest := pool - gone;
    forall x | x in rest
      ensures SameGraph(pool, rest, x)
    {
    }
    AncestorsLocal(pool, rest, h, d);
  }

  // ---------------------------------------------------------------------------------------------
  // Sums over sets of entries.

  ghost function Sum(w: map<H256, int>, s: set<H256>): int
    requires s <= w.Keys
  {
    if s == {} then 0 else
      var h :| h in s;
      w[h] + Sum(w, s - {h})
  }

  lemma {:induction false} SumPick(w: map<H256, int>, s: set<H256>, h: H256)
    requires s <= w.Keys && h in s
    ensures Sum(w, s) == w[h] + Sum(w, s - {h})
    decreases s
  {
    var h' :| h' in s && Sum(w, s) == w[h'] + Sum(w, s - {h'});
    if h' != h {
      SumPick(w, s - {h'}, h);
      SumPick(w, s - {h}, h');
      assert s - {h'} - {h} == s - {h} - {h'};
    }
  }

  lemma {:induction false} SumAgrees(w: map<H256, int>, w': map<H256, int>, s: set<H256>)
    requires s <= w.Keys && s <= w'.Keys && forall h :: h in s ==> w[h] == w'[h]
    ensures Sum(w, s) == Sum(w', s)
    decreases s
  {
    if s != {} {
      var h :| h in s && Sum(w, s) == w[h] + Sum(w, s - {h});
      SumPick(w', s, h);
      SumAgrees(w, w', s - {h});
    }
  }

  lemma {:induction false} SumNonNegative(w: map<H256, int>, s: set<H256>)
    requires s <= w.Keys && forall h :: h in s ==> w[h] >= 0
    ensures Sum(w, s) >= 0
    decreases s
  {
    if s != {} {
      var h :| h in s && Sum(w, s) == w[h] + Sum(w, s - {h});
      SumNonNegative(w, s - {h});
    }
  }

  ghost function Sizes(pool: Pool): map<H256, int> {
    map h | h in pool :: pool[h].size
  }

  ghost function Fees(pool: Pool): map<H256, int> {
    map h | h in pool :: pool[h].minerFee
  }

  ghost function VirtualFees(pool: Pool): map<H256, int> {
    map h | h in pool :: pool[h].minerVirtualFee
  }

  // ---------------------------------------------------------------------------------------------
  // Packages.

  /** The recorded ancestor sets, cut down to the pool, are the in-pool ancestors. */
  ghost predicate AncestorsExact(pool: Pool)
    requires WellOrdered(pool)
  {
    forall h, d :: h in pool && d in pool ==> (h in pool[d].ancestors <==> IsAncestor(pool, h, d))
  }

  /** An entry's package is itself and its distinct in-pool descendants. */
  ghost predicate PackageExact(pool: Pool, h: H256)
    requires WellOrdered(pool) && h in pool
  {
    var ds := Descendants(pool, h);
    && pool[h].packageSize == pool[h].size + Sum(Sizes(pool), ds)
    && pool[h].packageMinerFee == pool[h].minerFee + Sum(Fees(pool), ds)
    && pool[h].packageMinerVirtualFee == pool[h].minerVirtualFee + Sum(VirtualFees(pool), ds)
  }

  ghost predicate PackagesExact(pool: Pool)
    requires WellOrdered(pool)
  {
    forall h :: h in pool ==> PackageExact(pool, h)
  }

  /** `e` is added to the package totals of the entries in `to`. */
  function Credit(pool: Pool, to: set<H256>, e: Entry): Pool {
    map h | h in pool :: if h in to then Credited(pool[h], e) else pool[h]
  }

  function Credited(a: Entry, e: Entry): Entry {
    a.(packageSize := a.packageSize + e.size,
       packageMinerFee := a.packageMinerFee + e.packageMinerFee,
       packageMinerVirtualFee := a.packageMinerVirtualFee + e.packageMinerVirtualFee)
  }

  /** `get_ancestors`: parents found in the pool, with the ancestors recorded for them. */
  ghost function RecordedAncestors(pool: Pool, tx: Transaction): set<H256> {
    (InputHashes(tx) * pool.Keys) + set p, h | p in InputHashes(tx) && p in pool && h in pool[p].ancestors :: h
  }

  /** The pool after `e` arrives: ancestors credited, entry added. */
  ghost function Arrived(pool: Pool, e: Entry): Pool {
    Credit(pool, e.ancestors, e)[e.hash := e]
  }

  /** A fresh entry: no totals yet but its own, newest index, unknown hash that nothing spends. */
  ghost predicate FreshEntry(pool: Pool, e: Entry) {
    && e.hash !in pool && e.size > 0
    && e.packageSize == e.size && e.packageMinerFee == e.minerFee && e.packageMinerVirtualFee == e.minerVirtualFee
    && e.ancestors == RecordedAncestors(pool, e.transaction)
    && (forall h :: h in pool ==> pool[h].storageIndex < e.storageIndex)
    && (forall d :: d in pool ==> !IsParent(pool, e.hash, d))
    && e.hash !in InputHashes(e.transaction)
  }

  /** No recorded ancestor set mentions the newcomer. */
  ghost predicate Unrecorded(pool: Pool, h: H256) {
    forall d :: d in pool ==> h !in pool[d].ancestors
  }

  lemma {:induction false} ArrivedWellOrdered(pool: Pool, e: Entry)
    requires WellOrdered(pool) && FreshEntry(pool, e)
    ensures WellOrdered(Arrived(pool, e))
    ensures forall x :: x in pool ==> SameGraph(Arrived(pool, e), pool, x)
  {
    var pool' := Arrived(pool, e);
    forall p, d | p in pool' && IsParent(pool', p, d)
      ensures pool'[p].storageIndex < pool'[d].storageIndex
    {
      if d != e.hash {
        assert IsParent(pool, p, d);
      }
    }
  }

  lemma {:induction false} ArrivedAncestors(pool: Pool, e: Entry, h: H256, d: H256)
    requires WellOrdered(pool) && AncestorsExact(pool) && FreshEntry(pool, e) && h in pool
    requires WellOrdered(Arrived(pool, e))
    ensures d in pool ==> (IsAncestor(Arrived(pool, e), h, d) <==> IsAncestor(pool, h, d))
    ensures IsAncestor(Arrived(pool, e), h, e.hash) <==> h in e.ancestors
  {
    var pool' := Arrived(pool, e);
    ArrivedWellOrdered(pool, e);
    if d in pool {
      OldAncestors(pool, e, h, d);
    }
    if IsAncestor(pool', h, e.hash) {
      var p :| p in pool' && IsParent(pool', p, e.hash) && (h == p || IsAncestor(pool', h, p));
      assert p in InputHashes(e.transaction) && p in pool;
      if h != p {
        OldAncestors(pool, e, h, p);
        assert h in pool[p].ancestors;
      }
    }
    if h in e.ancestors {
      if h in InputHashes(e.transaction) {
        assert IsParent(pool', h, e.hash);
      } else {
        var p :| p in InputHashes(e.transaction) && p in pool && h in pool[p].ancestors;
        OldAncestors(pool, e, h, p);
        assert IsParent(pool', p, e.hash);
      }
    }
  }

  lemma {:induction false} OldAncestors(pool: Pool, e: Entry, h: H256, d: H256)
    requires WellOrdered(pool) && FreshEntry(pool, e) && d in pool && WellOrdered(Arrived(pool, e))
    ensures IsAncestor(Arrived(pool, e), h, d) <==> IsAncestor(pool, h, d)
  {
    var pool' := Arrived(pool, e);
    ArrivedWellOrdered(pool, e);
    forall p, x | p in pool' && x in pool && IsParent(pool', p, x)
      ensures p in pool
    {
      assert SameGraph(pool', pool, x);
      assert IsParent(pool, p, x);
    }
    AncestorsLocal(pool', pool, h, d);
  }

  /** An arrival keeps recorded ancestors exact: nobody descends from the newcomer. */
  lemma {:induction false} ArrivalKeepsAncestors(pool: Pool, e: Entry)
    requires WellOrdered(pool) && AncestorsExact(pool) && FreshEntry(pool, e) && Unrecorded(pool, e.hash)
    ensures WellOrdered(Arrived(pool, e)) && AncestorsExact(Arrived(pool, e))
    ensures Descendants(Arrived(pool, e), e.hash) == {}
  {
    ArrivedWellOrdered(pool, e);
    var pool' := Arrived(pool, e);
    forall d | d in pool'
      ensures !IsAncestor(pool', e.hash, d)
    {
      NewcomerIsLeaf(pool, e, d);
    }
    forall h, d | h in pool' && d in pool'
      ensures h in pool'[d].ancestors <==> IsAncestor(pool', h, d)
    {
      if h != e.hash {
        ArrivedAncestors(pool, e, h, d);
      }
    }
  }

  lemma {:induction false} NewcomerIsLeaf(pool: Pool, e: Entry, d: H256)
    requires WellOrdered(pool) && FreshEntry(pool, e) && WellOrdered(Arrived(pool, e))
    ensures !IsAncestor(Arrived(pool, e), e.hash, d)
    decreases if d in Arrived(pool, e) then Arrived(pool, e)[d].storageIndex + 1 else 0
  {
    var pool' := Arrived(pool, e);
    forall p | p in pool' && IsParent(pool', p, d)
      ensures p != e.hash && !IsAncestor(pool', e.hash, p)
    {
      assert d != e.hash ==> IsParent(pool, p, d);
      NewcomerIsLeaf(pool, e, p);
    }
  }

  /** The descendants of an old entry, after the arrival. */
  lemma {:induction false} ArrivedDescendants(pool: Pool, e: Entry, h: H256)
    requires WellOrdered(pool) && AncestorsExact(pool) && FreshEntry(pool, e) && h in pool
    requires WellOrdered(Arrived(pool, e))
    ensures Descendants(Arrived(pool, e), h) == Descendants(pool, h) + (if h in e.ancestors then {e.hash} else {})
  {
    var pool' := Arrived(pool, e);
    forall d | d in pool'
      ensures d in Descendants(pool', h) <==> d in Descendants(pool, h) + (if h in e.ancestors then {e.hash} else {})
    {
      ArrivedAncestors(pool, e, h, d);
    }
  }

  lemma {:induction false} SumGrows(w: map<H256, int>, w': map<H256, int>, s: set<H256>, h: H256)
    requires s <= w.Keys && h !in s && h in w' && s <= w'.Keys && forall x :: x in s ==> w[x] == w'[x]
    ensures Sum(w', s + {h}) == Sum(w, s) + w'[h]
  {
    SumPick(w', s + {h}, h);
    assert s + {h} - {h} == s;
    SumAgrees(w, w', s);
  }

  /** Crediting the recorded ancestors once each makes every package total right again, also when
      several paths lead from an ancestor to the newcomer. */
  lemma {:induction false} ArrivalKeepsPackages(pool: Pool, e: Entry)
    requires WellOrdered(pool) && AncestorsExact(pool) && PackagesExact(pool)
    requires FreshEntry(pool, e) && Unrecorded(pool, e.hash)
    ensures WellOrdered(Arrived(pool, e)) && PackagesExact(Arrived(pool, e))
  {
    ArrivalKeepsAncestors(pool, e);
    var pool' := Arrived(pool, e);
    forall h | h in pool'
      ensures PackageExact(pool', h)
    {
      if h == e.hash {
        assert Descendants(pool', h) == {};
      } else {
        ArrivalCredits(pool, e, h);
      }
    }
  }

  lemma {:induction false} ArrivalCredits(pool: Pool, e: Entry, h: H256)
    requires WellOrdered(pool) && AncestorsExact(pool) && FreshEntry(pool, e)
    requires h in pool && PackageExact(pool, h) && WellOrdered(Arrived(pool, e))
    ensures PackageExact(Arrived(pool, e), h)
  {
    hide IsAncestor, WellOrdered, AncestorsExact, Sum, RecordedAncestors;
    var pool' := Arrived(pool, e);
    var ds := Descendants(pool, h);
    ArrivedDescendants(pool, e, h);
    assert ds <= pool.Keys && e.hash !in ds;
    hide Descendants, Sizes, Fees, VirtualFees;
    ArrivedSums(pool, e, ds);
    assert ds + {} == ds;
  }

  /** The newcomer changes no own size or fee. */
  lemma {:induction false} ArrivedSums(pool: Pool, e: Entry, ds: set<H256>)
    requires e.hash !in pool && ds <= pool.Keys
    ensures var pool' := Arrived(pool, e);
            && Sum(Sizes(pool'), ds) == Sum(Sizes(pool), ds) && Sum(Sizes(pool'), ds + {e.hash}) == Sum(Sizes(pool), ds) + e.size
            && Sum(Fees(pool'), ds) == Sum(Fees(pool), ds) && Sum(Fees(pool'), ds + {e.hash}) == Sum(Fees(pool), ds) + e.minerFee
            && Sum(VirtualFees(pool'), ds) == Sum(VirtualFees(pool), ds)
            && Sum(VirtualFees(pool'), ds + {e.hash}) == Sum(VirtualFees(pool), ds) + e.minerVirtualFee
  {
    hide Sum;
    var pool' := Arrived(pool, e);
    SumAgrees(Sizes(pool), Sizes(pool'), ds);
    SumAgrees(Fees(pool), Fees(pool'), ds);
    SumAgrees(VirtualFees(pool), VirtualFees(pool'), ds);
    SumGrows(Sizes(pool), Sizes(pool'), ds, e.hash);
    SumGrows(Fees(pool), Fees(pool'), ds, e.hash);
    SumGrows(VirtualFees(pool), VirtualFees(pool'), ds, e.hash);
  }

  // ---------------------------------------------------------------------------------------------
  // Removal.

  lemma {:induction false} RemovedWellOrdered(pool: Pool, gone: set<H256>)
    requires WellOrdered(pool)
    ensures WellOrdered(pool - gone)
  {
  }

  /** Removing an entry without in-pool parents keeps all relations among the others. */
  lemma {:induction false} RootRemovalKeepsAncestors(pool: Pool, r: H256)
    requires WellOrdered(pool) && AncestorsExact(pool) && r in pool
    requires !HasLiveParent(pool[r].transaction, pool.Keys)
    ensures WellOrdered(pool - {r}) && AncestorsExact(pool - {r})
    ensures forall h, d :: h in pool - {r} && d in pool - {r} ==> (IsAncestor(pool - {r}, h, d) <==> IsAncestor(pool, h, d))
  {
    RemovedWellOrdered(pool, {r});
    forall h, d | h in pool - {r} && d in pool - {r}
      ensures IsAncestor(pool - {r}, h, d) <==> IsAncestor(pool, h, d)
    {
      RootNotBetween(pool, r, h, d);
    }
  }

  lemma {:induction false} RootNotBetween(pool: Pool, r: H256, h: H256, d: H256)
    requires WellOrdered(pool) && WellOrdered(pool - {r}) && r in pool && h != r && d in pool && d != r
    requires !HasLiveParent(pool[r].transaction, pool.Keys)
    ensures IsAncestor(pool - {r}, h, d) <==> IsAncestor(pool, h, d)
    decreases pool[d].storageIndex
  {
    var rest := pool - {r};
    forall p | p in pool && IsParent(pool, p, d)
      ensures p != r ==> (IsAncestor(rest, h, p) <==> IsAncestor(pool, h, p))
      ensures p == r ==> !IsAncestor(pool, h, p)
      ensures p != r ==> IsParent(rest, p, d)
    {
      if p != r {
        RootNotBetween(pool, r, h, p);
      } else {
        RootHasNoAncestors(pool, r, h);
      }
    }
    assert forall p :: p in rest && IsParent(rest, p, d) ==> p in pool && IsParent(pool, p, d);
  }

  lemma {:induction false} RootHasNoAncestors(pool: Pool, r: H256, h: H256)
    requires WellOrdered(pool) && r in pool && !HasLiveParent(pool[r].transaction, pool.Keys)
    ensures !IsAncestor(pool, h, r)
  {
  }

  lemma {:induction false} RootRemovalKeepsPackages(pool: Pool, r: H256)
    requires WellOrdered(pool) && AncestorsExact(pool) && PackagesExact(pool) && r in pool
    requires !HasLiveParent(pool[r].transaction, pool.Keys)
    ensures WellOrdered(pool - {r}) && PackagesExact(pool - {r})
  {
    RootRemovalKeepsAncestors(pool, r);
    var rest := pool - {r};
    forall h | h in rest
      ensures PackageExact(rest, h)
    {
      RootHasNoAncestors(pool, r, h);
      assert PackageExact(pool, h);
      var ds := Descendants(pool, h);
      assert Descendants(rest, h) == ds;
      SumAgrees(Sizes(pool), Sizes(rest), ds);
      SumAgrees(Fees(pool), Fees(rest), ds);
      SumAgrees(VirtualFees(pool), VirtualFees(rest), ds);
    }
  }

  /** Removing any entry leaves package totals exact if and only if the entry has no in-pool parent:
      a removal never takes the entry out of its ancestors' totals. */
  lemma {:induction false} RemovalKeepsPackagesIff(pool: Pool, r: H256)
    requires WellOrdered(pool) && AncestorsExact(pool) && PackagesExact(pool) && r in pool
    ensures WellOrdered(pool - {r})
    ensures PackagesExact(pool - {r}) <==> !HasLiveParent(pool[r].transaction, pool.Keys)
  {
    RemovedWellOrdered(pool, {r});
    if HasLiveParent(pool[r].transaction, pool.Keys) {
      var k :| 0 <= k < |pool[r].transaction.inputs| && pool[r].transaction.inputs[k].previousOutput.hash in pool.Keys;
      var p := pool[r].transaction.inputs[k].previousOutput.hash;
      assert IsParent(pool, p, r);
      ParentOvercounts(pool, r, p);
    } else {
      RootRemovalKeepsPackages(pool, r);
    }
  }

  lemma {:induction false} ParentOvercounts(pool: Pool, r: H256, p: H256)
    requires WellOrdered(pool) && WellOrdered(pool - {r}) && PackagesExact(pool)
    requires r in pool && p in pool && IsParent(pool, p, r)
    ensures p in pool - {r} && !PackageExact(pool - {r}, p)
  {
    var rest := pool - {r};
    var ds, ds' := Descendants(pool, p), Descendants(rest, p);
    assert PackageExact(pool, p) && IsAncestor(pool, p, r);
    forall d | d in ds'
      ensures d in ds - {r}
    {
      SmallerPoolAncestors(pool, r, p, d);
    }
    SumPick(Sizes(pool), ds, r);
    SumSubset(Sizes(pool), ds', ds - {r});
    SumAgrees(Sizes(pool), Sizes(rest), ds');
  }

  lemma {:induction false} SmallerPoolAncestors(pool: Pool, r: H256, h: H256, d: H256)
    requires WellOrdered(pool) && WellOrdered(pool - {r}) && IsAncestor(pool - {r}, h, d)
    ensures IsAncestor(pool, h, d)
    decreases if d in pool then pool[d].storageIndex + 1 else 0
  {
    var rest := pool - {r};
    var p :| p in rest && IsParent(rest, p, d) && (h == p || IsAncestor(rest, h, p));
    assert IsParent(pool, p, d);
    if h != p {
      SmallerPoolAncestors(pool, r, h, p);
    }
  }

  lemma {:induction false} SumSubset(w: map<H256, int>, a: set<H256>, b: set<H256>)
    requires a <= b <= w.Keys && forall h :: h in b ==> w[h] >= 0
    ensures Sum(w, a) <= Sum(w, b)
    decreases b - a
  {
    if h :| h in b && h !in a {
      SumSubset(w, a + {h}, b);
      SumPick(w, a + {h}, h);
      assert a + {h} - {h} == a;
    } else {
      assert a == b;
    }
  }
}
