/** The reference indexes over pool entries: children by parent, pending entries, and the three
    orderings of the entries that can be taken next (miner/src/memory_pool.rs:92-112, 568-613). */
module PoolReferences {
  import opened Primitives
  import O = PoolOrder
  import opened PoolGraph

  datatype References = References(
    byInput: map<H256, set<H256>>,
    pending: set<H256>,
    byStorageIndex: set<O.OrderKey>,
    byTransactionScore: set<O.OrderKey>,
    byPackageScore: set<O.OrderKey>)
  {
    function Ordered(strategy: Strategy): set<O.OrderKey> {
      match strategy
      case ByTimestamp => byStorageIndex
      case ByTransactionScore => byTransactionScore
      case ByPackageScore => byPackageScore
    }

    function InsertToOrderings(e: Entry): References {
      this.(byStorageIndex := O.Insert(byStorageIndex, KeyOf(ByTimestamp, e)),
            byTransactionScore := O.Insert(byTransactionScore, KeyOf(ByTransactionScore, e)),
            byPackageScore := O.Insert(byPackageScore, KeyOf(ByPackageScore, e)))
    }

    function RemoveFromOrderings(e: Entry): References {
      this.(byStorageIndex := O.Remove(byStorageIndex, KeyOf(ByTimestamp, e)),
            byTransactionScore := O.Remove(byTransactionScore, KeyOf(ByTransactionScore, e)),
            byPackageScore := O.Remove(byPackageScore, KeyOf(ByPackageScore, e)))
    }
  }

  const NO_REFERENCES: References := References(map[], {}, {}, {}, {})

  // ---------------------------------------------------------------------------------------------
  // What the indexes hold.

  ghost function Keys(strategy: Strategy, pool: Pool, hs: set<H256>): set<O.OrderKey> {
    set h | h in hs && h in pool :: KeyOf(strategy, pool[h])
  }

  /** The three orderings hold the current keys of exactly the entries `hs`. */
  ghost predicate Orders(refs: References, pool: Pool, hs: set<H256>) {
    forall strategy: Strategy :: refs.Ordered(strategy) == Keys(strategy, pool, hs)
  }

  /** Available entries are ordered, the other live ones are pending. */
  ghost predicate Ranked(refs: References, pool: Pool, live: set<H256>) {
    && live <= pool.Keys
    && refs.pending == live - Available(pool, live)
    && Orders(refs, pool, Available(pool, live))
  }

  /** Every live child is listed under each live parent, and pool entries only under their parents. */
  ghost predicate InputsIndexed(byInput: map<H256, set<H256>>, pool: Pool, live: set<H256>) {
    && (forall p, c :: p in live && c in live && IsParent(pool, p, c) ==> p in byInput && c in byInput[p])
    && (forall p, c :: p in byInput && c in byInput[p] && c in pool ==> IsParent(pool, p, c))
  }

  // ---------------------------------------------------------------------------------------------
  // Moving one entry in or out of the orderings.

  ghost predicate Labelled(pool: Pool) {
    forall h :: h in pool ==> pool[h].hash == h
  }

  lemma {:induction false} KeysOnePerHash(strategy: Strategy, pool: Pool, hs: set<H256>)
    requires Labelled(pool)
    ensures O.OnePerHash(Keys(strategy, pool, hs))
    ensures forall k :: k in Keys(strategy, pool, hs) ==> k.hash in hs && k.hash in pool && k == KeyOf(strategy, pool[k.hash])
  {
  }

  lemma {:induction false} KeysAdd(strategy: Strategy, pool: Pool, hs: set<H256>, h: H256)
    requires Labelled(pool) && h in pool
    ensures Keys(strategy, pool, hs + {h}) == Keys(strategy, pool, hs) + {KeyOf(strategy, pool[h])}
    ensures Keys(strategy, pool, hs - {h}) == Keys(strategy, pool, hs) - {KeyOf(strategy, pool[h])}
    ensures O.Insert(Keys(strategy, pool, hs), KeyOf(strategy, pool[h])) == Keys(strategy, pool, hs + {h})
    ensures O.Remove(Keys(strategy, pool, hs), KeyOf(strategy, pool[h])) == Keys(strategy, pool, hs - {h})
  {
    KeysOnePerHash(strategy, pool, hs + {h});
    var k := KeyOf(strategy, pool[h]);
    assert Keys(strategy, pool, hs + {h}) == Keys(strategy, pool, hs) + {k};
    O.PlainSet(Keys(strategy, pool, hs), k);
  }

  lemma {:induction false} InsertOrders(refs: References, pool: Pool, hs: set<H256>, h: H256)
    requires Labelled(pool) && h in pool && Orders(refs, pool, hs)
    ensures Orders(refs.InsertToOrderings(pool[h]), pool, hs + {h})
    ensures Orders(refs.RemoveFromOrderings(pool[h]), pool, hs - {h})
  {
    var added, removed := refs.InsertToOrderings(pool[h]), refs.RemoveFromOrderings(pool[h]);
    forall strategy: Strategy
      ensures added.Ordered(strategy) == Keys(strategy, pool, hs + {h})
      ensures removed.Ordered(strategy) == Keys(strategy, pool, hs - {h})
    {
      KeysAdd(strategy, pool, hs, h);
      assert refs.Ordered(strategy) == Keys(strategy, pool, hs);
    }
  }

  lemma {:induction false} KeysUpdate(strategy: Strategy, pool: Pool, hs: set<H256>, a: H256, x: Entry)
    requires Labelled(pool) && a in pool && x.hash == a
    ensures a in hs ==>
              O.Insert(O.Remove(Keys(strategy, pool, hs), KeyOf(strategy, pool[a])), KeyOf(strategy, x))
              == Keys(strategy, pool[a := x], hs)
    ensures a !in hs ==>
              O.Remove(Keys(strategy, pool, hs), KeyOf(strategy, pool[a])) == Keys(strategy, pool[a := x], hs)
    ensures O.Contains(Keys(strategy, pool, hs), KeyOf(strategy, pool[a])) <==> a in hs
  {
    var pool' := pool[a := x];
    KeysAdd(strategy, pool, hs, a);
    KeysOnePerHash(strategy, pool, hs + {a});
    O.PlainSet(Keys(strategy, pool, hs), KeyOf(strategy, pool[a]));
    assert Keys(strategy, pool, hs - {a}) == Keys(strategy, pool', hs - {a});
    KeysAdd(strategy, pool', hs - {a}, a);
    if a in hs {
      assert hs - {a} + {a} == hs;
    } else {
      assert hs - {a} == hs;
      KeysOnePerHash(strategy, pool, hs);
    }
  }

  /** The orderings look only at the entries they hold. */
  lemma {:induction false} OrdersLocal(refs: References, pool: Pool, pool': Pool, hs: set<H256>)
    requires Orders(refs, pool, hs) && hs <= pool.Keys && hs <= pool'.Keys
    requires forall h :: h in hs ==> pool[h] == pool'[h]
    ensures Orders(refs, pool', hs)
  {
  }

  // ---------------------------------------------------------------------------------------------
  // `ReferenceStorage::remove`.

  /** Dead entries have only dead parents: nothing was taken before its parents. */
  ghost predicate DeadClosed(pool: Pool, live: set<H256>) {
    forall p, c :: p in pool && c in pool && c !in live && IsParent(pool, p, c) ==> p !in live
  }

  /** What taking `e` makes available. */
  lemma {:induction false} AvailableAfter(pool: Pool, live: set<H256>, e: H256)
    requires live <= pool.Keys && e in live
    ensures Available(pool, live) - {e} <= Available(pool, live - {e})
    ensures forall c :: c in Available(pool, live - {e}) && c !in Available(pool, live) ==> IsParent(pool, e, c)
  {
  }

  /** Takes `entry` out of all indexes, moving children that are left without live parents from
      pending to the orderings. `byHash` and `removed` describe what is live afterwards. */
  method RemoveReference(refs: References, removed: set<H256>, byHash: Pool, entry: Entry, ghost pool: Pool)
    returns (refs': References)
    requires WellOrdered(pool) && entry.hash in pool && pool[entry.hash] == entry
    requires byHash.Keys <= pool.Keys <= byHash.Keys + {entry.hash} && forall h :: h in byHash ==> byHash[h] == pool[h]
    requires entry.hash !in byHash.Keys - removed
    requires var live := byHash.Keys - removed + {entry.hash};
             Ranked(refs, pool, live) && InputsIndexed(refs.byInput, pool, live) && DeadClosed(pool, live)
    ensures var live' := byHash.Keys - removed;
            Ranked(refs', byHash, live') && InputsIndexed(refs'.byInput, byHash, live')
    ensures refs'.byInput == refs.byInput - {entry.hash}
  {
    var e := entry.hash;
    ghost var live' := byHash.Keys - removed;
    ghost var live := live' + {e};
    ghost var before, after := Available(pool, live), Available(pool, live');
    assert live - {e} == live';
    AvailableAfter(pool, live, e);
    refs' := refs;
    var left := if e in refs.byInput then refs.byInput[e] else {};
    ghost var done: set<H256> := {};
    assert before + done * after == before;
    while left != {}
      invariant left <= (if e in refs.byInput then refs.byInput[e] else {})
      invariant done == (if e in refs.byInput then refs.byInput[e] else {}) - left
      invariant refs'.byInput == refs.byInput && refs'.pending == live - (before + done * after)
      invariant Orders(refs', pool, before + done * after)
    {
      var c :| c in left;
      if c in byHash {
        assert IsParent(pool, e, c) && c in live;
        if !(exists k :: 0 <= k < |byHash[c].transaction.inputs| &&
               byHash[c].transaction.inputs[k].previousOutput.hash in byHash &&
               byHash[c].transaction.inputs[k].previousOutput.hash !in removed)
        {
          assert c in after;
          InsertOrders(refs', pool, before + done * after, c);
          assert before + (done + {c}) * after == before + done * after + {c};
          refs' := refs'.(pending := refs'.pending - {c}).InsertToOrderings(byHash[c]);
        } else {
          assert c !in after;
          assert before + (done + {c}) * after == before + done * after;
        }
      } else {
        assert c !in after;
        assert before + (done + {c}) * after == before + done * after;
      }
      left := left - {c};
      done := done + {c};
    }
    assert before + done * after - {e} == after;
    InsertOrders(refs', pool, before + done * after, e);
    refs' := refs'.(byInput := refs'.byInput - {e}, pending := refs'.pending - {e}).RemoveFromOrderings(entry);
    FinishRemoval(refs', pool, byHash, live', refs.byInput, e);
  }

  lemma {:induction false} FinishRemoval(refs: References, pool: Pool, byHash: Pool, live: set<H256>, byInput: map<H256, set<H256>>, e: H256)
    requires byHash.Keys <= pool.Keys && live <= byHash.Keys && forall h :: h in byHash ==> byHash[h] == pool[h]
    requires e !in live
    requires refs.byInput == byInput - {e} && refs.pending == live - Available(pool, live)
    requires Orders(refs, pool, Available(pool, live)) && InputsIndexed(byInput, pool, live + {e})
    ensures Ranked(refs, byHash, live) && InputsIndexed(refs.byInput, byHash, live)
  {
    assert Available(pool, live) == Available(byHash, live);
    OrdersLocal(refs, pool, byHash, Available(pool, live));
    forall p, c | p in live && c in live && IsParent(byHash, p, c)
      ensures p in refs.byInput && c in refs.byInput[p]
    {
      assert IsParent(pool, p, c);
    }
    forall p, c | p in refs.byInput && c in refs.byInput[p] && c in byHash
      ensures IsParent(byHash, p, c)
    {
      assert IsParent(pool, p, c);
    }
  }
}
