/** The memory pool: its storage, insertion, ordered removal and double-spend handling
    (miner/src/memory_pool.rs). */
module MemoryPools {
  import opened Primitives
  import opened Chain
  import O = PoolOrder
  import opened PoolGraph
  import opened PoolReferences
  import opened PoolSpends
  import opened PoolIterators
  import opened PoolVirtualFee

  /** Every hash ever listed as a child belongs to a transaction seen to spend that parent. */
  ghost predicate SeenSpends(byInput: map<H256, set<H256>>, seen: map<H256, Transaction>) {
    forall p, c :: p in byInput && c in byInput[p] ==> c in seen && p in InputHashes(seen[c])
  }

  ghost predicate SeenPool(pool: Pool, seen: map<H256, Transaction>) {
    forall h :: h in pool ==> h in seen && seen[h] == pool[h].transaction && pool[h].ancestors <= seen.Keys
  }

  // ---------------------------------------------------------------------------------------------
  // The loops of `Storage::insert`.

  /** `m` is `byInput` with `h` also listed under each of `parents`. */
  ghost predicate ListedUnder(m: map<H256, set<H256>>, byInput: map<H256, set<H256>>, parents: set<H256>, h: H256) {
    && m.Keys == byInput.Keys + parents
    && forall p :: p in m ==> m[p] == (if p in byInput then byInput[p] else {}) + (if p in parents then {h} else {})
  }

  /** Lists `h` under every transaction it spends from. */
  method ListUnderInputs(byInput: map<H256, set<H256>>, tx: Transaction, h: H256) returns (m: map<H256, set<H256>>)
    ensures ListedUnder(m, byInput, InputHashes(tx), h)
  {
    m := byInput;
    for k := 0 to |tx.inputs|
      invariant ListedUnder(m, byInput, HashesOf(tx.inputs[..k]), h)
    {
      hide ListedUnder;
      var p := tx.inputs[k].previousOutput.hash;
      HashesOfSnoc(tx.inputs, k);
      ListOne(m, byInput, HashesOf(tx.inputs[..k]), p, h);
      m := m[p := (if p in m then m[p] else {}) + {h}];
    }
    assert tx.inputs[..|tx.inputs|] == tx.inputs;
  }

  lemma {:induction false} ListOne(m: map<H256, set<H256>>, byInput: map<H256, set<H256>>, ps: set<H256>, p: H256, h: H256)
    requires ListedUnder(m, byInput, ps, h)
    ensures ListedUnder(m[p := (if p in m then m[p] else {}) + {h}], byInput, ps + {p}, h)
  {
  }

  /** Adds the new entry to the totals of its recorded ancestors and refreshes their ordering keys. */
  method CreditAncestors(byHash: Pool, byPackage: set<O.OrderKey>, entry: Entry, ghost hs: set<H256>)
    returns (byHash': Pool, byPackage': set<O.OrderKey>)
    requires Labelled(byHash) && byPackage == Keys(ByPackageScore, byHash, hs)
    ensures byHash' == Credit(byHash, entry.ancestors, entry)
    ensures byPackage' == Keys(ByPackageScore, byHash', hs)
  {
    byHash', byPackage' := byHash, byPackage;
    var left := entry.ancestors;
    ghost var done: set<H256> := {};
    while left != {}
      invariant done + left == entry.ancestors && done !! left
      invariant byHash' == Credit(byHash, done, entry) && Labelled(byHash')
      invariant byPackage' == Keys(ByPackageScore, byHash', hs)
    {
      var a :| a in left;
      left := left - {a};
      if a in byHash' {
        var key := KeyOf(ByPackageScore, byHash'[a]);
        var x := Credited(byHash'[a], entry);
        KeysUpdate(ByPackageScore, byHash', hs, a, x);
        var removed := O.Contains(byPackage', key);
        byPackage' := O.Remove(byPackage', key);
        byHash' := byHash'[a := x];
        if removed {
          byPackage' := O.Insert(byPackage', KeyOf(ByPackageScore, x));
        }
      }
      done := done + {a};
    }
  }

  function SpentBy(os: set<OutPoint>, h: H256): map<OutPoint, H256> {
    map o | o in os :: h
  }

  lemma {:induction false} SpentByStep(m: map<OutPoint, H256>, os: set<OutPoint>, o: OutPoint, h: H256)
    ensures (m + SpentBy(os, h))[o := h] == m + SpentBy(os + {o}, h)
  {
  }

  lemma {:induction false} EmptyOutPoints(m: map<OutPoint, H256>, h: H256)
    ensures OutPointsOf([]) == {} && m + SpentBy({}, h) == m
  {
  }

  lemma {:induction false} NextOutPoint(inputs: seq<TransactionInput>, k: nat)
    requires DistinctInputs(inputs) && k < |inputs|
    ensures inputs[k].previousOutput in OutPointsOf(inputs) && inputs[k].previousOutput !in OutPointsOf(inputs[..k])
  {
  }

  method SpendInputs(byPrevious: map<OutPoint, H256>, tx: Transaction, h: H256) returns (m: map<OutPoint, H256>)
    requires PrevOuts(tx) !! byPrevious.Keys && DistinctInputs(tx.inputs)
    ensures m == byPrevious + SpentBy(PrevOuts(tx), h)
  {
    hide OutPointsOf, DistinctInputs;
    m := byPrevious;
    EmptyOutPoints(byPrevious, h);
    assert tx.inputs[..0] == [];
    for k := 0 to |tx.inputs|
      invariant m == byPrevious + SpentBy(OutPointsOf(tx.inputs[..k]), h)
    {
      var o := tx.inputs[k].previousOutput;
      NextOutPoint(tx.inputs, k);
      assert o !in m;  // `assert_eq!(previous_tx, None)`
      OutPointsOfSnoc(tx.inputs, k);
      SpentByStep(byPrevious, OutPointsOf(tx.inputs[..k]), o, h);
      m := m[o := h];
    }
    assert tx.inputs[..|tx.inputs|] == tx.inputs;
  }

  method ReleaseInputs(byPrevious: map<OutPoint, H256>, tx: Transaction, h: H256) returns (m: map<OutPoint, H256>)
    requires PrevOuts(tx) <= byPrevious.Keys && DistinctInputs(tx.inputs)
    requires forall o :: o in PrevOuts(tx) ==> byPrevious[o] == h
    ensures m == byPrevious - PrevOuts(tx)
  {
    m := byPrevious;
    for k := 0 to |tx.inputs|
      invariant m == byPrevious - OutPointsOf(tx.inputs[..k])
    {
      var o := tx.inputs[k].previousOutput;
      NextOutPoint(tx.inputs, k);
      assert o in m && m[o] == h;  // the drained value exists and names this transaction
      OutPointsOfSnoc(tx.inputs, k);
      m := m - {o};
    }
    assert tx.inputs[..|tx.inputs|] == tx.inputs;
  }

  // ---------------------------------------------------------------------------------------------
  // What an arrival does to each index.

  /** A transaction as the pool accepts it: its inputs are distinct and unspent in the pool, the
      in-pool outputs it spends exist, and its hash never named another transaction. */
  ghost predicate Acceptable(pool: Pool, byPrevious: map<OutPoint, H256>, seen: map<H256, Transaction>, hash: H256, tx: Transaction) {
    && WellFormed(pool, tx) && PrevOuts(tx) !! byPrevious.Keys
    && (hash in seen ==> seen[hash] == tx)
  }

  lemma {:induction false} ArrivedAvailable(pool: Pool, e: Entry)
    requires WellOrdered(pool) && FreshEntry(pool, e)
    ensures var pool' := Arrived(pool, e);
            Available(pool', pool'.Keys) ==
              Available(pool, pool.Keys) + (if HasLiveParent(e.transaction, pool.Keys) then {} else {e.hash})
  {
    hide RecordedAncestors, HasLiveParent, HashesOf;
    var pool' := Arrived(pool, e);
    forall h | h in pool'
      ensures HasLiveParent(pool'[h].transaction, pool'.Keys) <==>
                HasLiveParent(if h == e.hash then e.transaction else pool[h].transaction, pool.Keys)
    {
      var tx := pool'[h].transaction;
      LiveParents(tx, pool'.Keys);
      LiveParents(tx, pool.Keys);
      assert e.hash !in InputHashes(tx) by {
        assert h != e.hash ==> !IsParent(pool, e.hash, h);
      }
      assert InputHashes(tx) * pool'.Keys == InputHashes(tx) * pool.Keys;
    }
  }

  /** Crediting changes package keys only. */
  lemma {:induction false} CreditedOrders(refs: References, pool: Pool, e: Entry, hs: set<H256>, byPackage: set<O.OrderKey>)
    requires Orders(refs, pool, hs) && byPackage == Keys(ByPackageScore, Credit(pool, e.ancestors, e), hs)
    ensures Orders(refs.(byPackageScore := byPackage), Credit(pool, e.ancestors, e), hs)
  {
    var pool', refs' := Credit(pool, e.ancestors, e), refs.(byPackageScore := byPackage);
    forall strategy: Strategy
      ensures refs'.Ordered(strategy) == Keys(strategy, pool', hs)
    {
      if strategy != ByPackageScore {
        assert refs.Ordered(strategy) == Keys(strategy, pool, hs);
        assert forall h :: h in pool ==> KeyOf(strategy, pool'[h]) == KeyOf(strategy, pool[h]);
        assert Keys(strategy, pool', hs) == Keys(strategy, pool, hs);
      }
    }
  }

  /** The orderings and pending set after the arrival. */
  lemma {:induction false} ArrivedRanked(refs: References, pool: Pool, e: Entry)
    requires WellOrdered(pool) && FreshEntry(pool, e)
    requires Orders(refs, Credit(pool, e.ancestors, e), Available(pool, pool.Keys))
    requires refs.pending == pool.Keys - Available(pool, pool.Keys)
    ensures var refs' := if HasLiveParent(e.transaction, pool.Keys) then refs.(pending := refs.pending + {e.hash})
                         else refs.InsertToOrderings(e);
            var pool' := Arrived(pool, e);
            Ranked(refs', pool', pool'.Keys)
  {
    var pool', hs := Arrived(pool, e), Available(pool, pool.Keys);
    ArrivedAvailable(pool, e);
    ArrivedWellOrdered(pool, e);
    OrdersLocal(refs, Credit(pool, e.ancestors, e), pool', hs);
    if HasLiveParent(e.transaction, pool.Keys) {
      assert Available(pool', pool'.Keys) == hs;
      OrdersPending(refs, pool', hs, refs.pending + {e.hash});
    } else {
      InsertOrders(refs, pool', hs, e.hash);
    }
  }

  lemma {:induction false} OrdersPending(refs: References, pool: Pool, hs: set<H256>, pending: set<H256>)
    requires Orders(refs, pool, hs)
    ensures Orders(refs.(pending := pending), pool, hs)
  {
  }

  /** What is listed under a parent was seen to spend it, so pool entries are listed only there. */
  lemma {:induction false} SeenSound(byInput: map<H256, set<H256>>, pool: Pool, seen: map<H256, Transaction>)
    requires SeenSpends(byInput, seen) && SeenPool(pool, seen)
    ensures forall p, c :: p in byInput && c in byInput[p] && c in pool ==> IsParent(pool, p, c)
  {
  }

  lemma {:induction false} ArrivedSeenSpends(m: map<H256, set<H256>>, byInput: map<H256, set<H256>>, e: Entry, seen: map<H256, Transaction>)
    requires SeenSpends(byInput, seen) && (e.hash in seen ==> seen[e.hash] == e.transaction)
    requires ListedUnder(m, byInput, InputHashes(e.transaction), e.hash)
    ensures SeenSpends(m, seen[e.hash := e.transaction])
  {
  }

  lemma {:induction false} ArrivedInputs(m: map<H256, set<H256>>, byInput: map<H256, set<H256>>, pool: Pool, e: Entry,
                                         seen: map<H256, Transaction>)
    requires FreshEntry(pool, e) && InputsIndexed(byInput, pool, pool.Keys)
    requires SeenSpends(m, seen) && SeenPool(Arrived(pool, e), seen)
    requires ListedUnder(m, byInput, InputHashes(e.transaction), e.hash)
    ensures InputsIndexed(m, Arrived(pool, e), Arrived(pool, e).Keys)
  {
    hide HashesOf, RecordedAncestors;
    var pool' := Arrived(pool, e);
    SeenSound(m, pool', seen);
    forall p, c | p in pool' && c in pool' && IsParent(pool', p, c)
      ensures p in m && c in m[p]
    {
      if c != e.hash {
        assert IsParent(pool, p, c);
      }
    }
  }

  lemma {:induction false} ArrivedSpenders(pool: Pool, byPrevious: map<OutPoint, H256>, e: Entry)
    requires SpendersIndexed(pool, byPrevious) && e.hash !in pool && PrevOuts(e.transaction) !! byPrevious.Keys
    ensures SpendersIndexed(Arrived(pool, e), byPrevious + SpentBy(PrevOuts(e.transaction), e.hash))
  {
    var pool', m := Arrived(pool, e), byPrevious + SpentBy(PrevOuts(e.transaction), e.hash);
    forall h, o | h in pool' && o in PrevOuts(pool'[h].transaction)
      ensures o in m && m[o] == h
    {
      if h != e.hash {
        assert o in PrevOuts(pool[h].transaction);
      }
    }
  }

  lemma {:induction false} ArrivedWellFormed(pool: Pool, e: Entry)
    requires WellOrdered(pool) && AllWellFormed(pool) && FreshEntry(pool, e) && WellFormed(pool, e.transaction)
    ensures AllWellFormed(Arrived(pool, e))
  {
    var pool' := Arrived(pool, e);
    forall h | h in pool'
      ensures WellFormed(pool', pool'[h].transaction)
    {
      var tx := pool'[h].transaction;
      assert h != e.hash ==> WellFormed(pool, pool[h].transaction) && !IsParent(pool, e.hash, h);
      forall k | 0 <= k < |tx.inputs| && tx.inputs[k].previousOutput.hash in pool'
        ensures tx.inputs[k].previousOutput.index < |pool'[tx.inputs[k].previousOutput.hash].transaction.outputs|
      {
        assert tx.inputs[k].previousOutput.hash in InputHashes(tx);
      }
    }
  }

  lemma {:induction false} RecordedSeen(pool: Pool, tx: Transaction, seen: map<H256, Transaction>)
    requires SeenPool(pool, seen)
    ensures RecordedAncestors(pool, tx) <= seen.Keys
  {
  }

  // ---------------------------------------------------------------------------------------------
  // The pool object.

  /** All indexes of the pool agree with its entries. `seen` remembers every transaction ever accepted. */
  ghost predicate Consistent(byHash: Pool, byPrevious: map<OutPoint, H256>, refs: References,
                             counter: nat, total: int, seen: map<H256, Transaction>)
  {
    && WellOrdered(byHash) && AllWellFormed(byHash)
    && SpendersIndexed(byHash, byPrevious)
    && Ranked(refs, byHash, byHash.Keys) && InputsIndexed(refs.byInput, byHash, byHash.Keys)
    && SeenPool(byHash, seen) && SeenSpends(refs.byInput, seen)
    && (forall h :: h in byHash ==> byHash[h].storageIndex <= counter)
    && total == Sum(Sizes(byHash), byHash.Keys)
  }

  lemma {:induction false} ConsistentOrder(byHash: Pool, byPrevious: map<OutPoint, H256>, refs: References,
                                           counter: nat, total: int, seen: map<H256, Transaction>)
    requires Consistent(byHash, byPrevious, refs, counter, total, seen)
    ensures WellOrdered(byHash)
  {
  }

  /** `Storage::insert` on the indexes. */
  method InsertEntry(byHash: Pool, byPrevious: map<OutPoint, H256>, refs: References, entry: Entry,
                     ghost counter: nat, ghost total: int, ghost seen: map<H256, Transaction>)
    returns (byHash': Pool, byPrevious': map<OutPoint, H256>, refs': References)
    requires Consistent(byHash, byPrevious, refs, counter, total, seen)
    requires FreshEntry(byHash, entry) && entry.storageIndex <= counter
    requires Acceptable(byHash, byPrevious, seen, entry.hash, entry.transaction)
    ensures byHash' == Arrived(byHash, entry) && refs'.byInput.Keys == refs.byInput.Keys + InputHashes(entry.transaction)
    ensures Consistent(byHash', byPrevious', refs', counter, total + entry.size, seen[entry.hash := entry.transaction])
  {
    assert Labelled(byHash) && refs.Ordered(ByPackageScore) == Keys(ByPackageScore, byHash, Available(byHash, byHash.Keys));
    hide WellOrdered, AllWellFormed, SpendersIndexed, InputsIndexed, SeenPool, SeenSpends, Orders, FreshEntry;
    hide Sum, DistinctInputs, Credit, Keys, Labelled;
    ghost var hs := Available(byHash, byHash.Keys);
    var byInput := ListUnderInputs(refs.byInput, entry.transaction, entry.hash);
    var credited, byPackage := CreditAncestors(byHash, refs.byPackageScore, entry, hs);
    CreditedOrders(refs, byHash, entry, hs, byPackage);
    refs' := refs.(byPackageScore := byPackage);
    ArrivedRanked(refs', byHash, entry);
    if HasLiveParent(entry.transaction, byHash.Keys) {
      refs' := refs'.(pending := refs'.pending + {entry.hash});
    } else {
      refs' := refs'.InsertToOrderings(entry);
    }
    byPrevious' := SpendInputs(byPrevious, entry.transaction, entry.hash);
    InsertConsistent(byHash, byPrevious, refs, counter, total, seen, entry, refs', byInput);
    refs' := refs'.(byInput := byInput);
    byHash' := credited[entry.hash := entry];
  }

  /** `Storage::remove_by_hash` on the indexes. */
  method RemoveEntry(byHash: Pool, byPrevious: map<OutPoint, H256>, refs: References, h: H256,
                     ghost counter: nat, ghost total: int, ghost seen: map<H256, Transaction>)
    returns (byPrevious': map<OutPoint, H256>, refs': References)
    requires Consistent(byHash, byPrevious, refs, counter, total, seen) && h in byHash
    ensures byPrevious' == byPrevious - PrevOuts(byHash[h].transaction)
    ensures Consistent(byHash - {h}, byPrevious', refs', counter, total - byHash[h].size, seen)
  {
    hide WellOrdered, AllWellFormed, SpendersIndexed, InputsIndexed, SeenPool, SeenSpends, Ranked, DeadClosed, Sum;
    hide DistinctInputs;
    RemovalReady(byHash, byPrevious, refs, counter, total, seen, h);
    byPrevious' := ReleaseInputs(byPrevious, byHash[h].transaction, h);
    assert (byHash - {h}).Keys - {} + {h} == byHash.Keys;
    assert (byHash - {h}).Keys - {} == (byHash - {h}).Keys;
    refs' := RemoveReference(refs, {}, byHash - {h}, byHash[h], byHash);
    RemoveConsistent(byHash, byPrevious, refs, counter, total, seen, h, refs');
  }

  function NewEntry(hash: H256, tx: Transaction, ancestors: set<H256>, size: nat, storageIndex: nat, minerFee: nat): Entry {
    Entry(tx, ancestors, hash, size, storageIndex, minerFee, 0, size, minerFee, 0)
  }

  /** Parents found in the pool, with the ancestors recorded for them. */
  method GetAncestors(byHash: Pool, tx: Transaction) returns (ancestors: set<H256>)
    ensures ancestors == RecordedAncestors(byHash, tx)
  {
    ancestors := {};
    for k := 0 to |tx.inputs|
      invariant forall h :: h in ancestors <==>
                  exists j :: 0 <= j < k && tx.inputs[j].previousOutput.hash in byHash &&
                    (h == tx.inputs[j].previousOutput.hash || h in byHash[tx.inputs[j].previousOutput.hash].ancestors)
    {
      var p := tx.inputs[k].previousOutput.hash;
      if p in byHash {
        ancestors := ancestors + {p} + byHash[p].ancestors;
      }
    }
  }

  lemma {:induction false} CountUp(byHash: Pool, byPrevious: map<OutPoint, H256>, refs: References,
                                   counter: nat, total: int, seen: map<H256, Transaction>)
    requires Consistent(byHash, byPrevious, refs, counter, total, seen)
    ensures Consistent(byHash, byPrevious, refs, counter + 1, total, seen)
    ensures forall h :: h in byHash ==> byHash[h].storageIndex < counter + 1
  {
  }

  lemma {:induction false} UnseenUnrecorded(pool: Pool, seen: map<H256, Transaction>, h: H256)
    requires SeenPool(pool, seen)
    ensures h !in seen ==> Unrecorded(pool, h)
  {
  }

  lemma {:induction false} ConsistentSpends(byHash: Pool, byPrevious: map<OutPoint, H256>, refs: References,
                                            counter: nat, total: int, seen: map<H256, Transaction>)
    requires Consistent(byHash, byPrevious, refs, counter, total, seen)
    ensures WellOrdered(byHash) && AllWellFormed(byHash) && SpendersIndexed(byHash, byPrevious) && Bounded(byHash, counter)
  {
  }

  lemma {:induction false} StartDrain(pool: Pool, strategy: Strategy)
    ensures Greedy(pool, strategy, []) && pool - Taken([]) == pool
  {
  }

  lemma {:induction false} RestrictedChoice(pool: Pool, rest: Pool, strategy: Strategy, live: set<H256>, h: H256)
    requires rest.Keys == live <= pool.Keys && forall x :: x in rest ==> rest[x] == pool[x]
    ensures FirstAvailable(rest, strategy, live, h) ==> FirstAvailable(pool, strategy, live, h)
  {
    hide HasLiveParent, KeyOf;
    assert Available(rest, live) == Available(pool, live);
    assert Keys(strategy, rest, Available(rest, live)) == Keys(strategy, pool, Available(pool, live));
  }

  /** Draining the pool picks what iterating the original pool picks. */
  lemma {:induction false} DrainStep(pool: Pool, strategy: Strategy, out: seq<H256>, h: H256)
    requires Greedy(pool, strategy, out)
    requires var rest := pool - Taken(out); FirstAvailable(rest, strategy, rest.Keys, h)
    ensures Greedy(pool, strategy, out + [h])
    ensures pool - Taken(out) - {h} == pool - Taken(out + [h])
  {
    var rest, live := pool - Taken(out), pool.Keys - Taken(out);
    assert rest.Keys == live;
    RestrictedChoice(pool, rest, strategy, live, h);
    hide Greedy, FirstAvailable;
    GreedySnoc(pool, strategy, out, h);
    TakenSnoc(out, h);
  }

  /** The state of the removal walk, seen from the pool it started on. */
  ghost predicate Removing(pool: Pool, spenders: map<OutPoint, H256>, prevout: OutPoint, gone: set<H256>, queue: seq<OutPoint>)
    requires WellOrdered(pool)
  {
    && gone <= Victims(pool, Roots(spenders, {prevout}))
    && (forall o :: o in queue ==> o == prevout || IsOutputOf(pool, gone, o))
    && (prevout in queue || prevout !in spenders || spenders[prevout] in gone)
    && Walked(pool, spenders, gone, queue)
  }

  lemma {:induction false} RemovingStep(pool: Pool, spenders: map<OutPoint, H256>, prevout: OutPoint, gone: set<H256>, queue: seq<OutPoint>)
    requires WellOrdered(pool) && AllWellFormed(pool) && SpendersIndexed(pool, spenders) && queue != []
    requires Removing(pool, spenders, prevout, gone, queue)
    ensures queue[0] !in spenders || spenders[queue[0]] in gone ==> Removing(pool, spenders, prevout, gone, queue[1..])
    ensures queue[0] in spenders ==>
              var c := spenders[queue[0]];
              c in pool && |pool[c].transaction.outputs| <= 0x1_0000_0000
              && Removing(pool, spenders, prevout, gone + {c}, queue[1..] + Outputs(c, pool[c].transaction))
  {
    hide WellOrdered, AllWellFormed, SpendersIndexed, Walked;
    var o := queue[0];
    WalkStep(pool, spenders, gone, queue);
    assert queue == [o] + queue[1..];
    if o in spenders {
      var c := spenders[o];
      NewOutputs(pool, gone, c);
      assert c in Victims(pool, Roots(spenders, {prevout})) by {
        VictimStep(pool, spenders, prevout, gone, o);
      }
    }
  }

  lemma {:induction false} VictimStep(pool: Pool, spenders: map<OutPoint, H256>, prevout: OutPoint, gone: set<H256>, o: OutPoint)
    requires WellOrdered(pool) && SpendersIndexed(pool, spenders) && o in spenders
    requires gone <= Victims(pool, Roots(spenders, {prevout})) && (o == prevout || IsOutputOf(pool, gone, o))
    ensures spenders[o] in Victims(pool, Roots(spenders, {prevout}))
  {
    var roots := Roots(spenders, {prevout});
    if o == prevout {
      assert spenders[o] in roots;
      assert IsVictim(pool, roots, spenders[o]);
    } else {
      assert IsOutputOf(pool, Victims(pool, roots), o);
      SpenderIsVictim(pool, spenders, roots, o);
    }
  }

  lemma {:induction false} RemovingStart(pool: Pool, spenders: map<OutPoint, H256>, prevout: OutPoint)
    requires WellOrdered(pool)
    ensures Taken([]) == {} && pool - Taken([]) == pool && Removing(pool, spenders, prevout, Taken([]), [prevout])
  {
  }

  lemma {:induction false} RemovingDone(pool: Pool, spenders: map<OutPoint, H256>, prevout: OutPoint, gone: set<H256>)
    requires WellOrdered(pool) && AllWellFormed(pool) && SpendersIndexed(pool, spenders)
    requires Removing(pool, spenders, prevout, gone, [])
    ensures gone == Victims(pool, Roots(spenders, {prevout}))
  {
    WalkedClosed(pool, spenders, gone);
    assert Roots(spenders, {prevout}) <= gone;
    VictimsLeast(pool, Roots(spenders, {prevout}), gone);
  }

  lemma {:induction false} SmallerPool(pool: Pool, h: H256)
    requires h in pool
    ensures |pool - {h}| < |pool|
  {
  }

  /** One more double spend removed. */
  lemma {:induction false} ResolveStep(pool: Pool, spenders: map<OutPoint, H256>, done: set<OutPoint>, o: OutPoint, left: map<OutPoint, H256>)
    requires WellOrdered(pool) && o in spenders
    requires forall x :: x in left <==> x in spenders && spenders[x] !in Victims(pool, Roots(spenders, done))
    requires forall x :: x in left ==> left[x] == spenders[x]
    ensures var gone := Victims(pool, Roots(spenders, done));
            && WellOrdered(pool - gone)
            && pool - gone - Victims(pool - gone, Roots(left, {o})) == pool - Victims(pool, Roots(spenders, done + {o}))
  {
    hide WellOrdered, Victims;
    var gone := Victims(pool, Roots(spenders, done));
    RootsSnoc(spenders, done, o);
    VictimsAfter(pool, Roots(spenders, done), {spenders[o]});
    assert Roots(left, {o}) == {spenders[o]} - gone;
  }

  lemma {:induction false} ResolvedConflicts(pool: Pool, spenders: map<OutPoint, H256>, done: set<OutPoint>, left: map<OutPoint, H256>)
    requires WellOrdered(pool) && SpendersIndexed(pool, spenders)
    requires var gone := Victims(pool, Roots(spenders, done)); SpendersIndexed(pool - gone, left)
    ensures done !! left.Keys
    ensures left.Keys <= spenders.Keys
  {
    var gone := Victims(pool, Roots(spenders, done));
    SpendersRestrict(pool, spenders, gone, left);
    forall o | o in done && o in spenders
      ensures spenders[o] in gone
    {
      assert spenders[o] in Roots(spenders, done);
      assert IsVictim(pool, Roots(spenders, done), spenders[o]);
    }
  }

  lemma {:induction false} VictimsInPool(pool: Pool, roots: set<H256>)
    requires WellOrdered(pool)
    ensures pool.Keys - (pool - Victims(pool, roots)).Keys == Victims(pool, roots)
  {
  }

  /** A valid storage can be iterated from the start. */
  lemma {:induction false} ConsistentIterates(byHash: Pool, byPrevious: map<OutPoint, H256>, refs: References,
                                              counter: nat, total: int, seen: map<H256, Transaction>)
    requires Consistent(byHash, byPrevious, refs, counter, total, seen)
    ensures Iterating(byHash, refs, {})
  {
    assert byHash.Keys - {} == byHash.Keys;
  }

  lemma {:induction false} AllTaken(pool: Pool, strategy: Strategy, out: seq<H256>)
    requires Greedy(pool, strategy, out) && pool - Taken(out) == map[]
    ensures Taken(out) == pool.Keys
  {
    hide Taken, Greedy;
    GreedyTopological(pool, strategy, out);
    assert forall h :: h in pool && h !in Taken(out) ==> h in pool - Taken(out);
  }

  lemma {:induction false} OneReading(pool: Pool, strategy: Strategy, n: nat, out: seq<H256>)
    requires Labelled(pool) && IsReading(pool, strategy, n, out)
    ensures forall read :: IsReading(pool, strategy, n, read) ==> read == out
  {
    hide IsReading;
    forall read | IsReading(pool, strategy, n, read)
      ensures read == out
    {
      ReadingUnique(pool, strategy, n, read, out);
    }
  }

  class Storage {
    var counter: nat
    var transactionsSizeInBytes: int
    var byHash: Pool
    var byPreviousOutput: map<OutPoint, H256>
    var references: References
    ghost var seen: map<H256, Transaction>

    ghost predicate Valid()
      reads this
      ensures Valid() ==> WellOrdered(byHash)
    {
      Consistent(byHash, byPreviousOutput, references, counter, transactionsSizeInBytes, seen)
    }

    /** Recorded ancestors and package totals are those of the in-pool graph. */
    ghost predicate Packages()
      requires WellOrdered(byHash)
      reads this
    {
      AncestorsExact(byHash) && PackagesExact(byHash)
    }

    constructor ()
      ensures Valid() && Packages() && byHash == map[] && seen == map[] && references.byInput == map[] && counter == 0
    {
      counter, transactionsSizeInBytes := 0, 0;
      byHash, byPreviousOutput := map[], map[];
      references := NO_REFERENCES;
      seen := map[];
      new;
      EmptyConsistent();
    }

    /** Adds an entry whose parents are already in and whose children are not. */
    method Insert(entry: Entry)
      requires Valid() && FreshEntry(byHash, entry) && entry.storageIndex <= counter
      requires Acceptable(byHash, byPreviousOutput, seen, entry.hash, entry.transaction)
      modifies this
      ensures Valid() && byHash == Arrived(old(byHash), entry) && counter == old(counter)
      ensures seen == old(seen)[entry.hash := entry.transaction]
      ensures references.byInput.Keys == old(references.byInput.Keys) + InputHashes(entry.transaction)
      ensures old(Packages() && Unrecorded(byHash, entry.hash)) ==> Packages()
    {
      hide Consistent, FreshEntry, AncestorsExact, PackagesExact, Acceptable, Unrecorded, Arrived;
      ghost var pool := byHash;
      ghost var exact := Packages() && Unrecorded(byHash, entry.hash);
      if exact {
        ArrivalKeepsAncestors(byHash, entry);
        ArrivalKeepsPackages(byHash, entry);
      }
      byHash, byPreviousOutput, references :=
        InsertEntry(byHash, byPreviousOutput, references, entry, counter, transactionsSizeInBytes, seen);
      transactionsSizeInBytes := transactionsSizeInBytes + entry.size;
      seen := seen[entry.hash := entry.transaction];
    }

    /** Removes one entry; its descendants stay. The pool indexes stay consistent for any entry, but
        package totals only when the entry had no in-pool parent. */
    method RemoveByHash(h: H256) returns (r: Option<Entry>)
      requires Valid()
      modifies this
      ensures Valid() && byHash == old(byHash) - {h} && counter == old(counter) && seen == old(seen)
      ensures r == if h in old(byHash) then Some(old(byHash)[h]) else None
      ensures h !in old(byHash) ==> byPreviousOutput == old(byPreviousOutput)
      ensures h in old(byHash) ==> byPreviousOutput == old(byPreviousOutput) - PrevOuts(old(byHash)[h].transaction)
      ensures old(Packages()) && h in old(byHash) ==>
                (PackagesExact(byHash) <==> !HasLiveParent(old(byHash)[h].transaction, old(byHash).Keys))
      ensures old(Packages()) && h in old(byHash) && !HasLiveParent(old(byHash)[h].transaction, old(byHash).Keys) ==> Packages()
    {
      hide Consistent, AncestorsExact, PackagesExact, HasLiveParent;
      if h !in byHash {
        assert byHash - {h} == byHash;
        return None;
      }
      var entry := byHash[h];
      ConsistentOrder(byHash, byPreviousOutput, references, counter, transactionsSizeInBytes, seen);
      if Packages() {
        RemovalKeepsPackagesIff(byHash, h);
        if !HasLiveParent(entry.transaction, byHash.Keys) {
          RootRemovalKeepsAncestors(byHash, h);
        }
      }
      byPreviousOutput, references := RemoveEntry(byHash, byPreviousOutput, references, h, counter, transactionsSizeInBytes, seen);
      byHash := byHash - {h};
      transactionsSizeInBytes := transactionsSizeInBytes - entry.size;
      r := Some(entry);
    }

    /** `insert_verified` for a transaction that nothing in the pool spends from: the branch of the
        source in which no descendants have to be moved out of the way first. Reports whether the
        transaction was taken. */
    method InsertVerified(hash: H256, tx: Transaction, size: nat, minerFee: nat, acceptZeroFee: bool) returns (taken: bool)
      requires Valid() && hash !in byHash && hash !in references.byInput && size > 0
      requires (forall d :: d in byHash ==> !IsParent(byHash, hash, d)) && hash !in InputHashes(tx)
      requires Acceptable(byHash, byPreviousOutput, seen, hash, tx)
      modifies this
      ensures Valid() && counter == old(counter) + 1
      ensures taken <==> acceptZeroFee || minerFee != 0
      ensures !taken ==> byHash == old(byHash) && seen == old(seen)
      ensures taken ==>
                && byHash == Arrived(old(byHash), NewEntry(hash, tx, RecordedAncestors(old(byHash), tx), size, old(counter) + 1, minerFee))
                && seen == old(seen)[hash := tx]
                && references.byInput.Keys == old(references.byInput.Keys) + InputHashes(tx)
      ensures old(Packages()) && hash !in old(seen) ==> Packages()
    {
      hide AncestorsExact, PackagesExact, RecordedAncestors, Arrived;
      var ancestors := GetAncestors(byHash, tx);
      CountUp(byHash, byPreviousOutput, references, counter, transactionsSizeInBytes, seen);
      UnseenUnrecorded(byHash, seen, hash);
      counter := counter + 1;
      taken := acceptZeroFee || minerFee != 0;
      if taken {
        var entry := NewEntry(hash, tx, ancestors, size, counter, minerFee);
        Insert(entry);
      }
    }

    /** Takes out the first available entry of the strategy. Package totals stay exact. */
    method RemoveWithStrategy(strategy: Strategy) returns (r: Option<Entry>)
      requires Valid()
      modifies this
      ensures Valid() && counter == old(counter) && seen == old(seen)
      ensures r.None? <==> old(byHash) == map[]
      ensures r.None? ==> byHash == old(byHash)
      ensures r.Some? ==>
                var h := r.value.hash;
                FirstAvailable(old(byHash), strategy, old(byHash).Keys, h) && r.value == old(byHash)[h] && byHash == old(byHash) - {h}
      ensures old(Packages()) ==> Packages()
    {
      hide AncestorsExact, PackagesExact;
      ghost var before := byHash;
      ConsistentOrder(byHash, byPreviousOutput, references, counter, transactionsSizeInBytes, seen);
      var top := Top(references, byHash, strategy, byHash.Keys);
      if top.None? {
        return None;
      }
      assert !HasLiveParent(byHash[top.value].transaction, byHash.Keys);
      r := RemoveByHash(top.value);
    }

    /** The first `n` hashes in the strategy's order. */
    method ReadNWithStrategy(n: nat, strategy: Strategy) returns (out: seq<H256>)
      requires Valid()
      ensures IsReading(byHash, strategy, n, out)
    {
      ConsistentIterates(byHash, byPreviousOutput, references, counter, transactionsSizeInBytes, seen);
      out := ReadN(byHash, references, strategy, n);
    }

    /** Takes out up to `n` entries. What comes out is what reading them would have given. */
    method RemoveNWithStrategy(n: nat, strategy: Strategy) returns (out: seq<H256>)
      requires Valid()
      modifies this
      ensures Valid() && counter == old(counter) && seen == old(seen)
      ensures IsReading(old(byHash), strategy, n, out) && byHash == old(byHash) - Taken(out)
      ensures forall read :: IsReading(old(byHash), strategy, n, read) ==> read == out
      ensures old(Packages()) ==> Packages()
    {
      hide AncestorsExact, PackagesExact, Greedy, Taken, FirstAvailable, Consistent;
      ghost var pool := byHash;
      out := [];
      StartDrain(pool, strategy);
      while |out| < n
        invariant Valid() && counter == old(counter) && seen == old(seen) && |out| <= n
        invariant byHash == pool - Taken(out) && Greedy(pool, strategy, out)
        invariant old(Packages()) ==> Packages()
      {
        var e := RemoveWithStrategy(strategy);
        if e.None? {
          AllTaken(pool, strategy, out);
          OneReading(pool, strategy, n, out);
          return;
        }
        DrainStep(pool, strategy, out, e.value.hash);
        out := out + [e.value.hash];
      }
      OneReading(pool, strategy, n, out);
    }

    /** Gives an entry another virtual fee. Package totals survive only if the fee is the old one. */
    method SetVirtualFee(h: H256, fee: int)
      requires Valid()
      modifies this
      ensures Valid() && counter == old(counter) && seen == old(seen)
      ensures byHash == if h in old(byHash) then Reprioritized(old(byHash), h, fee) else old(byHash)
      ensures old(Packages()) && h in old(byHash) ==> (PackagesExact(byHash) <==> fee == old(byHash)[h].minerVirtualFee)
    {
      hide AncestorsExact, PackagesExact;
      if h in byHash {
        ghost var pool, refs := byHash, references;
        if Packages() {
          VirtualFeeKeepsPackagesIff(byHash, h, fee);
        }
        byHash, references := PoolVirtualFee.SetVirtualFee(byHash, references, h, fee, Available(byHash, byHash.Keys));
        ReprioritizedShape(pool, h, fee);
        ShapeConsistent(pool, byHash, byPreviousOutput, refs, references, counter, transactionsSizeInBytes, seen);
      }
    }

    method CheckDoubleSpend(tx: Transaction) returns (r: DoubleSpendCheckResult)
      requires Valid()
      ensures r.DoubleSpend? <==> exists k :: 0 <= k < |tx.inputs| && SpentByFinal(byHash, byPreviousOutput, tx.inputs[k].previousOutput)
      ensures r.DoubleSpend? ==> exists k :: 0 <= k < |tx.inputs| && ReportsFinal(byHash, byPreviousOutput, tx.inputs, k, r)
      ensures r.NoDoubleSpend? <==> PrevOuts(tx) !! byPreviousOutput.Keys
      ensures r.NonFinalDoubleSpend? ==> r.doubleSpends == PrevOuts(tx) * byPreviousOutput.Keys && r.doubleSpends != {}
      ensures r.NonFinalDoubleSpend? ==>
                forall o :: o in r.dependentSpends <==> IsOutputOf(byHash, Victims(byHash, Roots(byPreviousOutput, r.doubleSpends)), o)
    {
      r := PoolSpends.CheckDoubleSpend(byHash, byPreviousOutput, tx, counter);
    }

    /** Removes the spender of `prevout` and all its descendants, and nothing else. */
    method RemoveByPrevout(prevout: OutPoint) returns (removed: seq<H256>)
      requires Valid()
      modifies this
      ensures Valid() && counter == old(counter) && seen == old(seen)
      ensures byHash == old(byHash) - Taken(removed)
      ensures Taken(removed) == Victims(old(byHash), Roots(old(byPreviousOutput), {prevout}))
    {
      hide Consistent, WellOrdered, AllWellFormed, SpendersIndexed, Victims, Roots, Removing, Taken;
      ghost var pool, spenders := byHash, byPreviousOutput;
      ConsistentSpends(byHash, byPreviousOutput, references, counter, transactionsSizeInBytes, seen);
      removed := [];
      var queue := [prevout];
      RemovingStart(pool, spenders, prevout);
      while queue != []
        invariant Valid() && counter == old(counter) && seen == old(seen)
        invariant byHash == pool - Taken(removed)
        invariant Removing(pool, spenders, prevout, Taken(removed), queue)
        decreases |byHash|, |queue|
      {
        var o := queue[0];
        ConsistentSpends(byHash, byPreviousOutput, references, counter, transactionsSizeInBytes, seen);
        SpendersRestrict(pool, spenders, Taken(removed), byPreviousOutput);
        RemovingStep(pool, spenders, prevout, Taken(removed), queue);
        if o in byPreviousOutput {
          var h := byPreviousOutput[o];
          assert h in byHash;
          SmallerPool(byHash, h);
          var entry := RemoveByHash(h);
          TakenSnoc(removed, h);
          assert pool - Taken(removed) - {h} == pool - Taken(removed + [h]);
          removed := removed + [h];
          queue := queue[1..] + Outputs(h, entry.value.transaction);
        } else {
          queue := queue[1..];
        }
      }
      RemovingDone(pool, spenders, prevout, Taken(removed));
    }

    /** Clears the way for `tx`: removing the reported double spends removes exactly the entries whose
        outputs were reported as dependent, and then nothing in the pool conflicts with `tx`. */
    method ResolveDoubleSpends(tx: Transaction) returns (before: DoubleSpendCheckResult, after: DoubleSpendCheckResult)
      requires Valid()
      modifies this
      ensures Valid()
      ensures before.NonFinalDoubleSpend? ==>
                && after == NoDoubleSpend
                && byHash == old(byHash) - Victims(old(byHash), Roots(old(byPreviousOutput), before.doubleSpends))
                && forall o :: o in before.dependentSpends <==> IsOutputOf(old(byHash), old(byHash).Keys - byHash.Keys, o)
      ensures !before.NonFinalDoubleSpend? ==> after == before && byHash == old(byHash)
    {
      hide Consistent, Victims, Roots;
      before := CheckDoubleSpend(tx);
      if !before.NonFinalDoubleSpend? {
        return before, before;
      }
      ghost var pool, spenders := byHash, byPreviousOutput;
      ConsistentSpends(byHash, byPreviousOutput, references, counter, transactionsSizeInBytes, seen);
      var left := before.doubleSpends;
      NoRoots(pool, spenders);
      assert pool - Victims(pool, Roots(spenders, {})) == pool;
      ghost var done: set<OutPoint> := {};
      while left != {}
        invariant Valid() && done + left == before.doubleSpends && done !! left
        invariant byHash == pool - Victims(pool, Roots(spenders, done))
      {
        var o :| o in left;
        ConsistentSpends(byHash, byPreviousOutput, references, counter, transactionsSizeInBytes, seen);
        SpendersRestrict(pool, spenders, Victims(pool, Roots(spenders, done)), byPreviousOutput);
        ResolveStep(pool, spenders, done, o, byPreviousOutput);
        var _ := RemoveByPrevout(o);
        left := left - {o};
        done := done + {o};
      }
      assert done == before.doubleSpends;
      ConsistentSpends(byHash, byPreviousOutput, references, counter, transactionsSizeInBytes, seen);
      ResolvedConflicts(pool, spenders, done, byPreviousOutput);
      after := CheckDoubleSpend(tx);
      VictimsInPool(pool, Roots(spenders, done));
    }
  }

  /** Changing fees and package totals disturbs no index but the orderings. */
  lemma {:induction false} ShapeConsistent(pool: Pool, pool': Pool, byPrevious: map<OutPoint, H256>, refs: References, refs': References,
                                           counter: nat, total: int, seen: map<H256, Transaction>)
    requires Consistent(pool, byPrevious, refs, counter, total, seen) && SameShape(pool, pool')
    requires refs'.byInput == refs.byInput && refs'.pending == refs.pending
    requires Orders(refs', pool', Available(pool, pool.Keys))
    ensures Consistent(pool', byPrevious, refs', counter, total, seen)
  {
    hide Sum, Orders, AllWellFormed, SpendersIndexed, InputsIndexed, WellOrdered, SeenSpends;
    ShapeOrdered(pool, pool');
    ShapeAvailable(pool, pool', pool.Keys);
    SumAgrees(Sizes(pool), Sizes(pool'), pool.Keys);
    ShapeSpends(pool, pool', byPrevious);
    ShapeInputs(pool, pool', refs.byInput);
    assert forall h :: h in pool ==> SameGraph(pool, pool', h);
  }

  lemma {:induction false} ShapeSpends(pool: Pool, pool': Pool, byPrevious: map<OutPoint, H256>)
    requires SpendersIndexed(pool, byPrevious) && AllWellFormed(pool) && SameShape(pool, pool')
    ensures SpendersIndexed(pool', byPrevious) && AllWellFormed(pool')
  {
    assert forall h :: h in pool ==> SameGraph(pool, pool', h);
    forall h | h in pool'
      ensures WellFormed(pool', pool'[h].transaction)
    {
      assert WellFormed(pool, pool[h].transaction);
    }
  }

  lemma {:induction false} ShapeInputs(pool: Pool, pool': Pool, byInput: map<H256, set<H256>>)
    requires InputsIndexed(byInput, pool, pool.Keys) && SameShape(pool, pool')
    ensures InputsIndexed(byInput, pool', pool'.Keys)
  {
    assert forall h :: h in pool ==> SameGraph(pool, pool', h);
    assert forall p, c :: IsParent(pool', p, c) <==> IsParent(pool, p, c);
  }

  lemma {:induction false} RemovalReady(byHash: Pool, byPrevious: map<OutPoint, H256>, refs: References,
                                        counter: nat, total: int, seen: map<H256, Transaction>, h: H256)
    requires Consistent(byHash, byPrevious, refs, counter, total, seen) && h in byHash
    ensures byHash[h].hash == h && DistinctInputs(byHash[h].transaction.inputs)
    ensures PrevOuts(byHash[h].transaction) <= byPrevious.Keys
    ensures forall o :: o in PrevOuts(byHash[h].transaction) ==> byPrevious[o] == h
    ensures DeadClosed(byHash, byHash.Keys)
  {
    assert WellFormed(byHash, byHash[h].transaction);
  }

  lemma {:induction false} EmptyConsistent()
    ensures Consistent(map[], map[], NO_REFERENCES, 0, 0, map[])
    ensures WellOrdered(map[]) && AncestorsExact(map[]) && PackagesExact(map[])
  {
  }

  lemma {:induction false} InsertConsistent(byHash: Pool, byPrevious: map<OutPoint, H256>, refs: References,
                                            counter: nat, total: int, seen: map<H256, Transaction>,
                                            e: Entry, refs': References, byInput: map<H256, set<H256>>)
    requires Consistent(byHash, byPrevious, refs, counter, total, seen)
    requires FreshEntry(byHash, e) && e.storageIndex <= counter && Acceptable(byHash, byPrevious, seen, e.hash, e.transaction)
    requires Ranked(refs', Arrived(byHash, e), Arrived(byHash, e).Keys)
    requires ListedUnder(byInput, refs.byInput, InputHashes(e.transaction), e.hash)
    ensures Consistent(Arrived(byHash, e), byPrevious + SpentBy(PrevOuts(e.transaction), e.hash), refs'.(byInput := byInput),
                       counter, total + e.size, seen[e.hash := e.transaction])
  {
    hide AllWellFormed, WellFormed, SpendersIndexed, InputsIndexed, SeenPool, SeenSpends, Ranked, Sum, ListedUnder;
    var pool' := Arrived(byHash, e);
    ArrivedWellOrdered(byHash, e);
    ArrivedWellFormed(byHash, e);
    ArrivedSpenders(byHash, byPrevious, e);
    ArrivedSeen(byHash, e, seen);
    ArrivedSeenSpends(byInput, refs.byInput, e, seen);
    ArrivedInputs(byInput, refs.byInput, byHash, e, seen[e.hash := e.transaction]);
    RankedInput(refs', pool', pool'.Keys, byInput);
    SumGrows(Sizes(byHash), Sizes(pool'), byHash.Keys, e.hash);
    assert pool'.Keys == byHash.Keys + {e.hash};
  }

  lemma {:induction false} ArrivedSeen(pool: Pool, e: Entry, seen: map<H256, Transaction>)
    requires SeenPool(pool, seen) && e.ancestors == RecordedAncestors(pool, e.transaction)
    requires e.hash !in pool
    ensures SeenPool(Arrived(pool, e), seen[e.hash := e.transaction])
  {
    RecordedSeen(pool, e.transaction, seen);
  }

  lemma {:induction false} RankedInput(refs: References, pool: Pool, live: set<H256>, byInput: map<H256, set<H256>>)
    requires Ranked(refs, pool, live)
    ensures Ranked(refs.(byInput := byInput), pool, live)
  {
  }

  lemma {:induction false} RemoveConsistent(byHash: Pool, byPrevious: map<OutPoint, H256>, refs: References,
                                            counter: nat, total: int, seen: map<H256, Transaction>,
                                            h: H256, refs': References)
    requires Consistent(byHash, byPrevious, refs, counter, total, seen) && h in byHash
    requires var rest := byHash - {h};
             Ranked(refs', rest, rest.Keys) && InputsIndexed(refs'.byInput, rest, rest.Keys)
    requires refs'.byInput == refs.byInput - {h}
    ensures Consistent(byHash - {h}, byPrevious - PrevOuts(byHash[h].transaction), refs', counter, total - byHash[h].size, seen)
  {
    hide SpendersIndexed, InputsIndexed, Ranked, Sum;
    var rest := byHash - {h};
    RemovedWellOrdered(byHash, {h});
    forall x | x in rest
      ensures WellFormed(rest, rest[x].transaction)
    {
      assert WellFormed(byHash, byHash[x].transaction);
    }
    SumPick(Sizes(byHash), byHash.Keys, h);
    assert rest.Keys == byHash.Keys - {h};
    SumAgrees(Sizes(byHash), Sizes(rest), rest.Keys);
    RemovedSpenders(byHash, byPrevious, h);
  }

  lemma {:induction false} RemovedSpenders(pool: Pool, byPrevious: map<OutPoint, H256>, h: H256)
    requires SpendersIndexed(pool, byPrevious) && h in pool
    ensures SpendersIndexed(pool - {h}, byPrevious - PrevOuts(pool[h].transaction))
  {
    var rest, m := pool - {h}, byPrevious - PrevOuts(pool[h].transaction);
    forall x, o | x in rest && o in PrevOuts(rest[x].transaction)
      ensures o in m && m[o] == x
    {
      assert o in byPrevious && byPrevious[o] == x;
    }
  }
}
