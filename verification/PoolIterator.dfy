/** Iteration over the pool by strategy (miner/src/memory_pool.rs:845-880). */
module PoolIterators {
  import opened Primitives
  import O = PoolOrder
  import opened PoolGraph
  import opened PoolReferences

  ghost function Taken(out: seq<H256>): set<H256> {
    set h | h in out
  }

  /** `h` comes first, in the strategy's order, among the live entries without live parents. */
  ghost predicate FirstAvailable(pool: Pool, strategy: Strategy, live: set<H256>, h: H256) {
    && h in Available(pool, live)
    && O.IsFirst(Keys(strategy, pool, Available(pool, live)), KeyOf(strategy, pool[h]))
  }

  /** Each element is the first available one once the elements before it are taken. */
  ghost predicate Greedy(pool: Pool, strategy: Strategy, out: seq<H256>) {
    forall i :: 0 <= i < |out| ==> FirstAvailable(pool, strategy, pool.Keys - Taken(out[..i]), out[i])
  }

  lemma {:induction false} TakenSnoc(out: seq<H256>, h: H256)
    ensures Taken(out + [h]) == Taken(out) + {h}
  {
  }

  lemma {:induction false} GreedySnoc(pool: Pool, strategy: Strategy, out: seq<H256>, h: H256)
    requires Greedy(pool, strategy, out) && FirstAvailable(pool, strategy, pool.Keys - Taken(out), h)
    ensures Greedy(pool, strategy, out + [h])
  {
    var out' := out + [h];
    forall i | 0 <= i < |out'|
      ensures FirstAvailable(pool, strategy, pool.Keys - Taken(out'[..i]), out'[i])
    {
      if i < |out| {
        assert out'[..i] == out[..i];
      } else {
        assert out'[..i] == out;
      }
    }
  }

  /** A greedy order repeats nothing, stays inside the pool and puts every in-pool parent first. */
  lemma {:induction false} GreedyTopological(pool: Pool, strategy: Strategy, out: seq<H256>)
    requires Greedy(pool, strategy, out)
    ensures forall i, j :: 0 <= i < j < |out| ==> out[i] != out[j]
    ensures Taken(out) <= pool.Keys
    ensures forall i, p :: 0 <= i < |out| && p in pool && IsParent(pool, p, out[i]) ==> p in out[..i]
  {
  }

  /** The strategy's order is the only greedy one. */
  lemma {:induction false} GreedyUnique(pool: Pool, strategy: Strategy, out: seq<H256>, out': seq<H256>)
    requires Labelled(pool) && Greedy(pool, strategy, out) && Greedy(pool, strategy, out') && |out| <= |out'|
    ensures out == out'[..|out|]
  {
    hide Greedy;
    forall k | 0 <= k < |out|
      ensures out[k] == out'[k]
    {
      GreedyAgree(pool, strategy, out, out', k);
    }
  }

  lemma {:induction false} GreedyAgree(pool: Pool, strategy: Strategy, out: seq<H256>, out': seq<H256>, k: nat)
    requires Labelled(pool) && Greedy(pool, strategy, out) && Greedy(pool, strategy, out') && k < |out| <= |out'|
    ensures out[k] == out'[k]
    decreases k
  {
    hide Greedy, FirstAvailable, Taken;
    forall j | 0 <= j < k
      ensures out[j] == out'[j]
    {
      GreedyAgree(pool, strategy, out, out', j);
    }
    assert out[..k] == out'[..k];
    GreedyStep(pool, strategy, out, k);
    GreedyStep(pool, strategy, out', k);
    SamePick(pool, strategy, pool.Keys - Taken(out[..k]), out[k], out'[k]);
  }

  /** The first `n` hashes in the strategy's order, or all of them. */
  ghost predicate IsReading(pool: Pool, strategy: Strategy, n: nat, out: seq<H256>) {
    Greedy(pool, strategy, out) && |out| <= n && (|out| < n ==> Taken(out) == pool.Keys)
  }

  /** There is one such sequence. */
  lemma {:induction false} ReadingUnique(pool: Pool, strategy: Strategy, n: nat, out: seq<H256>, out': seq<H256>)
    requires Labelled(pool) && IsReading(pool, strategy, n, out) && IsReading(pool, strategy, n, out')
    ensures out == out'
  {
    hide Greedy, Taken;
    if |out| <= |out'| {
      ReadingsMeet(pool, strategy, n, out, out');
    } else {
      ReadingsMeet(pool, strategy, n, out', out);
    }
  }

  lemma {:induction false} ReadingsMeet(pool: Pool, strategy: Strategy, n: nat, out: seq<H256>, out': seq<H256>)
    requires Labelled(pool) && IsReading(pool, strategy, n, out) && IsReading(pool, strategy, n, out') && |out| <= |out'|
    ensures out == out'
  {
    hide Greedy, Taken;
    GreedyUnique(pool, strategy, out, out');
    NextIsLeft(pool, strategy, out', |out|);
  }

  lemma {:induction false} NextIsLeft(pool: Pool, strategy: Strategy, out: seq<H256>, k: nat)
    requires Greedy(pool, strategy, out) && k <= |out|
    ensures k < |out| ==> out[k] in pool.Keys - Taken(out[..k])
  {
    hide Taken, Greedy;
    if k < |out| {
      GreedyStep(pool, strategy, out, k);
    }
  }

  lemma {:induction false} GreedyStep(pool: Pool, strategy: Strategy, out: seq<H256>, k: nat)
    requires Greedy(pool, strategy, out) && k < |out|
    ensures FirstAvailable(pool, strategy, pool.Keys - Taken(out[..k]), out[k])
  {
  }

  lemma {:induction false} SamePick(pool: Pool, strategy: Strategy, live: set<H256>, a: H256, b: H256)
    requires Labelled(pool) && FirstAvailable(pool, strategy, live, a) && FirstAvailable(pool, strategy, live, b)
    ensures a == b
  {
    O.FirstUnique(Keys(strategy, pool, Available(pool, live)), KeyOf(strategy, pool[a]), KeyOf(strategy, pool[b]));
    assert a == KeyOf(strategy, pool[a]).hash == KeyOf(strategy, pool[b]).hash == b;
  }

  lemma {:induction false} KeysSized(strategy: Strategy, pool: Pool, hs: set<H256>)
    requires WellOrdered(pool)
    ensures O.AllSized(Keys(strategy, pool, hs)) && O.OnePerHash(Keys(strategy, pool, hs))
  {
  }

  /** Reads the first key of the strategy's ordering. */
  method Top(references: References, pool: Pool, strategy: Strategy, ghost live: set<H256>) returns (top: Option<H256>)
    requires WellOrdered(pool) && Ranked(references, pool, live)
    ensures top.None? <==> live == {}
    ensures top.Some? ==> FirstAvailable(pool, strategy, live, top.value)
  {
    ghost var hs := Available(pool, live);
    assert references.Ordered(strategy) == Keys(strategy, pool, hs);
    KeysSized(strategy, pool, hs);
    KeysOnePerHash(strategy, pool, hs);
    var key := O.First(references.Ordered(strategy));
    if live != {} {
      ghost var h :| h in live;
      SomethingAvailable(pool, live, h);
      ghost var a :| a in hs;
      assert KeyOf(strategy, pool[a]) in Keys(strategy, pool, hs);
    } else {
      assert hs == {};
    }
    top := if key.Some? then Some(key.value.hash) else None;
  }

  /** What an iterator knows: the references are those of the entries not yet yielded. */
  ghost predicate Iterating(pool: Pool, references: References, removed: set<H256>) {
    && WellOrdered(pool) && removed <= pool.Keys
    && Ranked(references, pool, pool.Keys - removed)
    && InputsIndexed(references.byInput, pool, pool.Keys - removed)
    && DeadClosed(pool, pool.Keys - removed)
  }

  lemma {:induction false} TakeKeepsClosed(pool: Pool, live: set<H256>, h: H256)
    requires DeadClosed(pool, live) && h in Available(pool, live)
    ensures DeadClosed(pool, live - {h})
  {
  }

  class MemoryPoolIterator {
    const byHash: Pool
    const strategy: Strategy
    var references: References
    var removed: set<H256>
    ghost var yielded: seq<H256>

    ghost predicate Valid()
      reads this
    {
      && Iterating(byHash, references, removed)
      && removed == Taken(yielded) && Greedy(byHash, strategy, yielded)
    }

    constructor (byHash: Pool, references: References, strategy: Strategy)
      requires Iterating(byHash, references, {})
      ensures Valid() && yielded == [] && this.byHash == byHash && this.strategy == strategy
    {
      this.byHash, this.strategy, this.references := byHash, strategy, references;
      removed := {};
      yielded := [];
    }

    /** Yields the first available entry; ends exactly when every entry has been yielded. */
    method Next() returns (r: Option<Entry>)
      requires Valid()
      modifies this
      ensures Valid()
      ensures r.None? <==> Taken(old(yielded)) == byHash.Keys
      ensures r.None? ==> yielded == old(yielded)
      ensures r.Some? ==> r.value.hash in byHash && r.value == byHash[r.value.hash] && yielded == old(yielded) + [r.value.hash]
    {
      hide Greedy, Ranked, InputsIndexed, DeadClosed, Taken;
      ghost var live := byHash.Keys - removed;
      var top := Top(references, byHash, strategy, live);
      if top.None? {
        assert forall h :: h in byHash ==> h in removed || h in live;
        return None;
      }
      var h := top.value;
      var entry := byHash[h];
      assert entry.hash == h;
      GreedySnoc(byHash, strategy, yielded, h);
      TakenSnoc(yielded, h);
      TakeKeepsClosed(byHash, live, h);
      assert byHash.Keys - (removed + {h}) == live - {h} && live - {h} + {h} == live;
      removed := removed + {h};
      references := RemoveReference(references, removed, byHash, entry, byHash);
      yielded := yielded + [h];
      r := Some(entry);
    }
  }

  /** `iter(strategy).map(hash).take(n)`: the first `n` hashes in the strategy's order. */
  method ReadN(byHash: Pool, references: References, strategy: Strategy, n: nat) returns (out: seq<H256>)
    requires Iterating(byHash, references, {})
    ensures IsReading(byHash, strategy, n, out)
  {
    hide Greedy, Iterating, Taken;
    var it := new MemoryPoolIterator(byHash, references, strategy);
    out := [];
    while |out| < n
      invariant fresh(it) && it.Valid() && it.byHash == byHash && it.strategy == strategy
      invariant out == it.yielded && |out| <= n
      decreases n - |out|
    {
      var e := it.Next();
      if e.None? {
        return;
      }
      out := out + [e.value.hash];
    }
  }
}
