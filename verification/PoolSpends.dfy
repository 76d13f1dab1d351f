/** Which outputs are spent in the pool, and what else goes when a spender is replaced
    (miner/src/memory_pool.rs:429-489). */
module PoolSpends {
  import opened Primitives
  import opened Chain
  import opened PoolGraph

  // ---------------------------------------------------------------------------------------------
  // The spent-output index.

  function OutPointsOf(inputs: seq<TransactionInput>): set<OutPoint> {
    set k | 0 <= k < |inputs| :: inputs[k].previousOutput
  }

  function PrevOuts(tx: Transaction): set<OutPoint> {
    OutPointsOf(tx.inputs)
  }

  lemma {:induction false} OutPointsOfSnoc(inputs: seq<TransactionInput>, k: nat)
    requires k < |inputs|
    ensures OutPointsOf(inputs[..k + 1]) == OutPointsOf(inputs[..k]) + {inputs[k].previousOutput}
  {
  }

  /** No output is named twice. */
  ghost predicate DistinctInputs(inputs: seq<TransactionInput>) {
    forall i, j :: 0 <= i < j < |inputs| ==> inputs[i].previousOutput != inputs[j].previousOutput
  }

  /** `byPrevious` maps exactly the outputs spent in the pool, each to the entry that spends it. */
  ghost predicate SpendersIndexed(pool: Pool, byPrevious: map<OutPoint, H256>) {
    && (forall o :: o in byPrevious ==> byPrevious[o] in pool && o in PrevOuts(pool[byPrevious[o]].transaction))
    && (forall h, o :: h in pool && o in PrevOuts(pool[h].transaction) ==> o in byPrevious && byPrevious[o] == h)
  }

  /** No transaction names an output twice, and outputs of in-pool parents exist. */
  ghost predicate WellFormed(pool: Pool, tx: Transaction) {
    && |tx.outputs| <= 0x1_0000_0000
    && DistinctInputs(tx.inputs)
    && (forall k :: 0 <= k < |tx.inputs| ==>
          var o := tx.inputs[k].previousOutput; o.hash in pool ==> o.index < |pool[o.hash].transaction.outputs|)
  }

  ghost predicate AllWellFormed(pool: Pool) {
    forall h :: h in pool ==> WellFormed(pool, pool[h].transaction)
  }

  // ---------------------------------------------------------------------------------------------
  // Dependents of a set of entries.

  ghost predicate IsVictim(pool: Pool, roots: set<H256>, d: H256)
    requires WellOrdered(pool)
  {
    exists c :: c in roots && (d == c || IsAncestor(pool, c, d))
  }

  /** The entries in `roots` and all their in-pool descendants. */
  ghost function Victims(pool: Pool, roots: set<H256>): set<H256>
    requires WellOrdered(pool)
  {
    set d | d in pool && IsVictim(pool, roots, d)
  }

  ghost predicate ChildClosed(pool: Pool, s: set<H256>) {
    forall p, x :: p in s && x in pool && IsParent(pool, p, x) ==> x in s
  }

  lemma {:induction false} VictimsClosed(pool: Pool, roots: set<H256>)
    requires WellOrdered(pool)
    ensures ChildClosed(pool, Victims(pool, roots))
  {
  }

  lemma {:induction false} DescendantInClosed(pool: Pool, s: set<H256>, c: H256, d: H256)
    requires WellOrdered(pool) && ChildClosed(pool, s) && c in s && IsAncestor(pool, c, d)
    ensures d in s
    decreases if d in pool then pool[d].storageIndex + 1 else 0
  {
    var p :| p in pool && IsParent(pool, p, d) && (c == p || IsAncestor(pool, c, p));
    if c != p {
      DescendantInClosed(pool, s, c, p);
    }
  }

  /** The victims are the least child-closed set that contains the roots. */
  lemma {:induction false} VictimsLeast(pool: Pool, roots: set<H256>, s: set<H256>)
    requires WellOrdered(pool) && ChildClosed(pool, s) && roots <= s
    ensures Victims(pool, roots) <= s
  {
    forall d | d in Victims(pool, roots)
      ensures d in s
    {
      var c :| c in roots && (d == c || IsAncestor(pool, c, d));
      if d != c {
        DescendantInClosed(pool, s, c, d);
      }
    }
  }

  /** Removing one family of victims leaves the others as they were. */
  lemma {:induction false} VictimsAfter(pool: Pool, first: set<H256>, second: set<H256>)
    requires WellOrdered(pool)
    ensures var gone := Victims(pool, first);
            WellOrdered(pool - gone) && gone + Victims(pool - gone, second - gone) == Victims(pool, first + second)
  {
    var gone := Victims(pool, first);
    var rest := pool - gone;
    RemovedWellOrdered(pool, gone);
    VictimsClosed(pool, first);
    forall d | d in pool
      ensures d in gone + Victims(rest, second - gone) <==> IsVictim(pool, first + second, d)
    {
      if d in gone {
        var c :| c in first && (d == c || IsAncestor(pool, c, d));
        assert c in first + second;
      } else {
        OutsideVictim(pool, first, second, d);
      }
    }
  }

  lemma {:induction false} OutsideVictim(pool: Pool, first: set<H256>, second: set<H256>, d: H256)
    requires WellOrdered(pool) && d in pool && d !in Victims(pool, first) && ChildClosed(pool, Victims(pool, first))
    requires WellOrdered(pool - Victims(pool, first))
    ensures IsVictim(pool - Victims(pool, first), second - Victims(pool, first), d) <==> IsVictim(pool, first + second, d)
  {
    var gone := Victims(pool, first);
    var rest := pool - gone;
    assert !IsVictim(pool, first, d);
    if IsVictim(pool, first + second, d) {
      var c :| c in first + second && (d == c || IsAncestor(pool, c, d));
      assert c in second;
      if d != c {
        assert c !in gone by {
          if c in gone {
            DescendantInClosed(pool, gone, c, d);
          }
        }
        AncestorsOutside(pool, gone, c, d);
      }
      assert c in second - gone;
    }
    if IsVictim(rest, second - gone, d) {
      var c :| c in second - gone && (d == c || IsAncestor(rest, c, d));
      if d != c {
        AncestorsOutside(pool, gone, c, d);
      }
      assert c in first + second;
    }
  }

  // ---------------------------------------------------------------------------------------------
  // Walking from outputs to their spenders.

  /** `o` is an existing output of an entry in `s`. */
  ghost predicate IsOutputOf(pool: Pool, s: set<H256>, o: OutPoint) {
    o.hash in s && o.hash in pool && o.index < |pool[o.hash].transaction.outputs|
  }

  function Outputs(h: H256, tx: Transaction): seq<OutPoint>
    requires |tx.outputs| <= 0x1_0000_0000
  {
    seq(|tx.outputs|, i requires 0 <= i < |tx.outputs| => OutPoint(h, i))
  }

  /** A pool child is the spender of some existing output of its parent. */
  lemma {:induction false} ChildSpendsOutput(pool: Pool, byPrevious: map<OutPoint, H256>, p: H256, x: H256)
    requires SpendersIndexed(pool, byPrevious) && AllWellFormed(pool) && p in pool && x in pool && IsParent(pool, p, x)
    ensures exists o :: o in byPrevious && byPrevious[o] == x && IsOutputOf(pool, {p}, o)
  {
    var tx := pool[x].transaction;
    var k :| 0 <= k < |tx.inputs| && tx.inputs[k].previousOutput.hash == p;
    assert WellFormed(pool, tx);
    assert tx.inputs[k].previousOutput in PrevOuts(tx);
    assert IsOutputOf(pool, {p}, tx.inputs[k].previousOutput);
  }

  /** What the walk knows: every output reached either waits in the queue or has its spender done. */
  ghost predicate Walked(pool: Pool, byPrevious: map<OutPoint, H256>, done: set<H256>, queue: seq<OutPoint>) {
    forall o :: o in byPrevious && IsOutputOf(pool, done, o) ==> o in queue || byPrevious[o] in done
  }

  /** Once the queue is empty the done entries are child-closed. */
  lemma {:induction false} WalkedClosed(pool: Pool, byPrevious: map<OutPoint, H256>, done: set<H256>)
    requires SpendersIndexed(pool, byPrevious) && AllWellFormed(pool) && done <= pool.Keys
    requires Walked(pool, byPrevious, done, [])
    ensures ChildClosed(pool, done)
  {
    forall p, x | p in done && x in pool && IsParent(pool, p, x)
      ensures x in done
    {
      ChildSpendsOutput(pool, byPrevious, p, x);
      var o :| o in byPrevious && byPrevious[o] == x && IsOutputOf(pool, {p}, o);
      assert IsOutputOf(pool, done, o);
    }
  }

  /** Popping an output whose spender is (or becomes) done, and queueing the spender's outputs. */
  lemma {:induction false} WalkStep(pool: Pool, byPrevious: map<OutPoint, H256>, done: set<H256>, queue: seq<OutPoint>)
    requires SpendersIndexed(pool, byPrevious) && AllWellFormed(pool)
    requires queue != [] && Walked(pool, byPrevious, done, queue)
    ensures queue[0] !in byPrevious ==> Walked(pool, byPrevious, done, queue[1..])
    ensures queue[0] in byPrevious && byPrevious[queue[0]] in done ==> Walked(pool, byPrevious, done, queue[1..])
    ensures queue[0] in byPrevious ==>
              var c := byPrevious[queue[0]];
              c in pool && |pool[c].transaction.outputs| <= 0x1_0000_0000
              && Walked(pool, byPrevious, done + {c}, queue[1..] + Outputs(c, pool[c].transaction))
  {
    assert queue == [queue[0]] + queue[1..];
    if queue[0] in byPrevious {
      var c := byPrevious[queue[0]];
      assert WellFormed(pool, pool[c].transaction);
      var outs := Outputs(c, pool[c].transaction);
      forall o | o in byPrevious && IsOutputOf(pool, done + {c}, o)
        ensures o in queue[1..] + outs || byPrevious[o] in done + {c}
      {
        if o.hash == c {
          assert outs[o.index] == o;
        } else {
          assert IsOutputOf(pool, done, o);
        }
      }
    }
  }

  /** A victim's spender is a victim. */
  lemma {:induction false} SpenderIsVictim(pool: Pool, byPrevious: map<OutPoint, H256>, roots: set<H256>, o: OutPoint)
    requires WellOrdered(pool) && SpendersIndexed(pool, byPrevious)
    requires o in byPrevious && IsOutputOf(pool, Victims(pool, roots), o)
    ensures byPrevious[o] in Victims(pool, roots)
  {
  }

  // ---------------------------------------------------------------------------------------------
  // The walk visits an entry once per path to it; it ends because paths are finite.

  ghost predicate Bounded(pool: Pool, bound: nat) {
    forall h :: h in pool ==> pool[h].storageIndex <= bound
  }

  /** How many queue pops the first `n` outputs of `h` cause. */
  ghost function Weight(pool: Pool, byPrevious: map<OutPoint, H256>, bound: nat, h: H256, n: nat): nat
    requires WellOrdered(pool) && SpendersIndexed(pool, byPrevious) && AllWellFormed(pool) && Bounded(pool, bound)
    requires h in pool && n <= |pool[h].transaction.outputs|
    decreases bound - pool[h].storageIndex, n
  {
    if n == 0 then 0 else
      assert WellFormed(pool, pool[h].transaction);
      var o := OutPoint(h, n - 1);
      Weight(pool, byPrevious, bound, h, n - 1) + 1 +
      (if o in byPrevious then
         var c := byPrevious[o];
         assert IsParent(pool, h, c) by { SpenderIsChild(pool, byPrevious, o); }
         Weight(pool, byPrevious, bound, c, |pool[c].transaction.outputs|)
       else 0)
  }

  lemma {:induction false} SpenderIsChild(pool: Pool, byPrevious: map<OutPoint, H256>, o: OutPoint)
    requires SpendersIndexed(pool, byPrevious) && o in byPrevious
    ensures IsParent(pool, o.hash, byPrevious[o])
  {
  }

  ghost function QueueWeight(pool: Pool, byPrevious: map<OutPoint, H256>, bound: nat, queue: seq<OutPoint>): nat
    requires WellOrdered(pool) && SpendersIndexed(pool, byPrevious) && AllWellFormed(pool) && Bounded(pool, bound)
  {
    if queue == [] then 0 else
      var n := |queue| - 1;
      var o := queue[n];
      QueueWeight(pool, byPrevious, bound, queue[..n]) + 1 +
      (if o in byPrevious then Weight(pool, byPrevious, bound, byPrevious[o], |pool[byPrevious[o]].transaction.outputs|) else 0)
  }

  lemma {:induction false} QueueWeightConcat(pool: Pool, byPrevious: map<OutPoint, H256>, bound: nat, a: seq<OutPoint>, b: seq<OutPoint>)
    requires WellOrdered(pool) && SpendersIndexed(pool, byPrevious) && AllWellFormed(pool) && Bounded(pool, bound)
    ensures QueueWeight(pool, byPrevious, bound, a + b)
            == QueueWeight(pool, byPrevious, bound, a) + QueueWeight(pool, byPrevious, bound, b)
    decreases |b|
  {
    if b == [] {
      assert a + b == a;
    } else {
      var n := |b| - 1;
      QueueWeightConcat(pool, byPrevious, bound, a, b[..n]);
      assert (a + b)[..|a + b| - 1] == a + b[..n];
    }
  }

  lemma {:induction false} OutputsWeight(pool: Pool, byPrevious: map<OutPoint, H256>, bound: nat, h: H256, n: nat)
    requires WellOrdered(pool) && SpendersIndexed(pool, byPrevious) && AllWellFormed(pool) && Bounded(pool, bound)
    requires h in pool && n <= |pool[h].transaction.outputs| <= 0x1_0000_0000
    ensures QueueWeight(pool, byPrevious, bound, Outputs(h, pool[h].transaction)[..n]) == Weight(pool, byPrevious, bound, h, n)
    decreases n
  {
    if n > 0 {
      OutputsWeight(pool, byPrevious, bound, h, n - 1);
      var outs := Outputs(h, pool[h].transaction);
      assert outs[..n][..n - 1] == outs[..n - 1] && outs[..n][n - 1] == OutPoint(h, n - 1);
    }
  }

  /** Each pop makes the queue lighter, even when it queues a whole transaction's outputs. */
  lemma {:induction false} PopLighter(pool: Pool, byPrevious: map<OutPoint, H256>, bound: nat, queue: seq<OutPoint>)
    requires WellOrdered(pool) && SpendersIndexed(pool, byPrevious) && AllWellFormed(pool) && Bounded(pool, bound)
    requires queue != []
    ensures QueueWeight(pool, byPrevious, bound, queue[1..]) < QueueWeight(pool, byPrevious, bound, queue)
    ensures queue[0] in byPrevious ==>
              var c := byPrevious[queue[0]];
              |pool[c].transaction.outputs| <= 0x1_0000_0000 &&
              QueueWeight(pool, byPrevious, bound, queue[1..] + Outputs(c, pool[c].transaction))
              < QueueWeight(pool, byPrevious, bound, queue)
  {
    assert queue == [queue[0]] + queue[1..];
    QueueWeightConcat(pool, byPrevious, bound, [queue[0]], queue[1..]);
    assert [queue[0]][..0] == [];
    if queue[0] in byPrevious {
      var c := byPrevious[queue[0]];
      assert WellFormed(pool, pool[c].transaction);
      var outs := Outputs(c, pool[c].transaction);
      OutputsWeight(pool, byPrevious, bound, c, |outs|);
      assert outs[..|outs|] == outs;
      QueueWeightConcat(pool, byPrevious, bound, queue[1..], outs);
    }
  }

  // ---------------------------------------------------------------------------------------------
  // Double-spend checks.

  datatype DoubleSpendCheckResult =
    | NoDoubleSpend
    | DoubleSpend(spender: H256, hash: H256, index: u32)
    | NonFinalDoubleSpend(doubleSpends: set<OutPoint>, dependentSpends: set<OutPoint>)

  /** The pool entries that spend one of `os`. */
  ghost function Roots(byPrevious: map<OutPoint, H256>, os: set<OutPoint>): set<H256> {
    set o | o in os && o in byPrevious :: byPrevious[o]
  }

  /** Output `o` is spent by a final pool transaction. */
  predicate SpentByFinal(pool: Pool, byPrevious: map<OutPoint, H256>, o: OutPoint) {
    o in byPrevious && byPrevious[o] in pool && pool[byPrevious[o]].transaction.IsFinal()
  }

  /** Input `k` is the first one spent by a final pool transaction, and `r` reports it. */
  ghost predicate ReportsFinal(pool: Pool, byPrevious: map<OutPoint, H256>, inputs: seq<TransactionInput>, k: nat, r: DoubleSpendCheckResult)
    requires k < |inputs|
  {
    var o := inputs[k].previousOutput;
    && SpentByFinal(pool, byPrevious, o) && r == DoubleSpend(byPrevious[o], o.hash, o.index)
    && forall j :: 0 <= j < k ==> !SpentByFinal(pool, byPrevious, inputs[j].previousOutput)
  }

  lemma {:induction false} VictimsUnion(pool: Pool, a: set<H256>, b: set<H256>)
    requires WellOrdered(pool)
    ensures Victims(pool, a + b) == Victims(pool, a) + Victims(pool, b)
  {
  }

  /** The outputs of the spender of `prevout` and of all its descendants. */
  method Dependents(pool: Pool, byPrevious: map<OutPoint, H256>, prevout: OutPoint, ghost bound: nat)
    returns (spends: set<OutPoint>)
    requires WellOrdered(pool) && SpendersIndexed(pool, byPrevious) && AllWellFormed(pool) && Bounded(pool, bound)
    requires prevout in byPrevious
    ensures forall o :: o in spends <==> IsOutputOf(pool, Victims(pool, {byPrevious[prevout]}), o)
  {
    ghost var victims := Victims(pool, {byPrevious[prevout]});
    var queue := [prevout];
    spends := {};
    ghost var done: set<H256> := {};
    while queue != []
      invariant done <= victims && (prevout in queue || byPrevious[prevout] in done)
      invariant forall o :: o in queue ==> o == prevout || IsOutputOf(pool, done, o)
      invariant forall o :: o in spends <==> IsOutputOf(pool, done, o)
      invariant Walked(pool, byPrevious, done, queue)
      decreases QueueWeight(pool, byPrevious, bound, queue)
    {
      hide SpendersIndexed, AllWellFormed, WellOrdered, Walked, Victims;
      WalkStep(pool, byPrevious, done, queue);
      PopLighter(pool, byPrevious, bound, queue);
      var o := queue[0];
      assert queue == [o] + queue[1..];
      if o in byPrevious {
        var c := byPrevious[o];
        assert c in victims by {
          WalkStaysInside(pool, byPrevious, done, prevout, o);
        }
        var outs := Outputs(c, pool[c].transaction);
        spends := spends + (set i | 0 <= i < |outs| :: outs[i]);
        NewOutputs(pool, done, c);
        queue := queue[1..] + outs;
        done := done + {c};
      } else {
        queue := queue[1..];
      }
    }
    WalkedClosed(pool, byPrevious, done);
    VictimsLeast(pool, {byPrevious[prevout]}, done);
  }

  lemma {:induction false} WalkStaysInside(pool: Pool, byPrevious: map<OutPoint, H256>, done: set<H256>, prevout: OutPoint, o: OutPoint)
    requires WellOrdered(pool) && SpendersIndexed(pool, byPrevious) && prevout in byPrevious && o in byPrevious
    requires done <= Victims(pool, {byPrevious[prevout]}) && (o == prevout || IsOutputOf(pool, done, o))
    ensures byPrevious[o] in Victims(pool, {byPrevious[prevout]})
  {
  }

  lemma {:induction false} NewOutputs(pool: Pool, done: set<H256>, c: H256)
    requires c in pool && |pool[c].transaction.outputs| <= 0x1_0000_0000
    ensures var outs := Outputs(c, pool[c].transaction);
            && (forall o :: o in outs <==> IsOutputOf(pool, {c}, o))
            && (forall o :: IsOutputOf(pool, done + {c}, o) <==> IsOutputOf(pool, done, o) || o in outs)
  {
    var outs := Outputs(c, pool[c].transaction);
    forall o | IsOutputOf(pool, {c}, o)
      ensures o in outs
    {
      assert outs[o.index] == o;
    }
  }

  lemma {:induction false} SpenderInPool(pool: Pool, byPrevious: map<OutPoint, H256>, o: OutPoint)
    requires SpendersIndexed(pool, byPrevious) && o in byPrevious
    ensures byPrevious[o] in pool
  {
  }

  lemma {:induction false} NoRoots(pool: Pool, byPrevious: map<OutPoint, H256>)
    requires WellOrdered(pool)
    ensures Victims(pool, Roots(byPrevious, {})) == {}
  {
  }

  /** Compares a transaction's inputs with what the pool already spends. */
  method CheckDoubleSpend(pool: Pool, byPrevious: map<OutPoint, H256>, tx: Transaction, ghost bound: nat)
    returns (r: DoubleSpendCheckResult)
    requires WellOrdered(pool) && SpendersIndexed(pool, byPrevious) && AllWellFormed(pool) && Bounded(pool, bound)
    ensures r.DoubleSpend? <==> exists k :: 0 <= k < |tx.inputs| && SpentByFinal(pool, byPrevious, tx.inputs[k].previousOutput)
    ensures r.DoubleSpend? ==> exists k :: 0 <= k < |tx.inputs| && ReportsFinal(pool, byPrevious, tx.inputs, k, r)
    ensures r.NoDoubleSpend? <==> PrevOuts(tx) !! byPrevious.Keys
    ensures r.NonFinalDoubleSpend? ==> r.doubleSpends == PrevOuts(tx) * byPrevious.Keys && r.doubleSpends != {}
    ensures r.NonFinalDoubleSpend? ==>
              forall o :: o in r.dependentSpends <==> IsOutputOf(pool, Victims(pool, Roots(byPrevious, r.doubleSpends)), o)
  {
    hide Victims, Roots, WellOrdered, SpendersIndexed, AllWellFormed, Bounded;
    NoRoots(pool, byPrevious);
    var inputs := tx.inputs;
    var doubleSpends, dependent: set<OutPoint> := {}, {};
    var k := 0;
    while k < |inputs|
      invariant 0 <= k <= |inputs|
      invariant forall j :: 0 <= j < k ==> !SpentByFinal(pool, byPrevious, inputs[j].previousOutput)
      invariant doubleSpends == OutPointsOf(inputs[..k]) * byPrevious.Keys
      invariant forall o :: o in dependent <==> IsOutputOf(pool, Victims(pool, Roots(byPrevious, doubleSpends)), o)
    {
      var o := inputs[k].previousOutput;
      assert o in OutPointsOf(inputs);
      OutPointsOfSnoc(inputs, k);
      if o in byPrevious {
        var spender := byPrevious[o];
        SpenderInPool(pool, byPrevious, o);
        if pool[spender].transaction.IsFinal() {
          r := DoubleSpend(spender, o.hash, o.index);
          assert ReportsFinal(pool, byPrevious, inputs, k, r);
          assert o in PrevOuts(tx) && o in byPrevious.Keys;
          return;
        }
        hide OutPointsOf, IsOutputOf;
        var more := Dependents(pool, byPrevious, o, bound);
        RootsSnoc(byPrevious, doubleSpends, o);
        VictimsUnion(pool, Roots(byPrevious, doubleSpends), {spender});
        OutputsUnion(pool, Victims(pool, Roots(byPrevious, doubleSpends)), Victims(pool, {spender}));
        doubleSpends := doubleSpends + {o};
        dependent := dependent + more;
      }
      k := k + 1;
    }
    assert inputs[..|inputs|] == inputs;
    assert doubleSpends == PrevOuts(tx) * byPrevious.Keys;
    assert doubleSpends == {} <==> PrevOuts(tx) !! byPrevious.Keys by {
      assert forall o :: o in doubleSpends <==> o in PrevOuts(tx) && o in byPrevious.Keys;
    }
    r := if doubleSpends == {} then NoDoubleSpend else NonFinalDoubleSpend(doubleSpends, dependent);
  }

  lemma {:induction false} OutputsUnion(pool: Pool, a: set<H256>, b: set<H256>)
    ensures forall o :: IsOutputOf(pool, a + b, o) <==> IsOutputOf(pool, a, o) || IsOutputOf(pool, b, o)
  {
  }

  lemma {:induction false} RootsSnoc(byPrevious: map<OutPoint, H256>, os: set<OutPoint>, o: OutPoint)
    requires o in byPrevious
    ensures Roots(byPrevious, os + {o}) == Roots(byPrevious, os) + {byPrevious[o]}
  {
  }

  /** What remains of the spent-output index when entries go. */
  lemma {:induction false} SpendersRestrict(pool: Pool, byPrevious: map<OutPoint, H256>, gone: set<H256>, left: map<OutPoint, H256>)
    requires SpendersIndexed(pool, byPrevious) && SpendersIndexed(pool - gone, left)
    ensures forall o :: o in left <==> o in byPrevious && byPrevious[o] !in gone
    ensures forall o :: o in left ==> left[o] == byPrevious[o]
  {
    var rest := pool - gone;
    forall o | o in left
      ensures o in byPrevious && left[o] == byPrevious[o]
    {
      assert o in PrevOuts(pool[left[o]].transaction);
    }
    forall o | o in byPrevious && byPrevious[o] !in gone
      ensures o in left
    {
      assert o in PrevOuts(rest[byPrevious[o]].transaction);
    }
  }
}
