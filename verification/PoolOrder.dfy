/** The orderings of the memory pool and the sorted sets kept by them (miner/src/memory_pool.rs:103-275). */
module PoolOrder {
  import opened Primitives

  /** A key of an ordered set: entry time, or a fee/size score. Transaction score and package score
      share the second form. */
  datatype OrderKey =
    | TimeKey(hash: H256, storageIndex: nat)
    | ScoreKey(hash: H256, size: nat, minerFee: nat, minerVirtualFee: int)
  {
    function Fee(): int
      requires ScoreKey?
    {
      minerFee + minerVirtualFee
    }
  }

  /** `Ord::cmp` says Less. Scores are compared as fractions, by cross-multiplication, best first. */
  predicate Before(a: OrderKey, b: OrderKey) {
    match (a, b)
    case (TimeKey(ha, ia), TimeKey(hb, ib)) => ia < ib || (ia == ib && ha < hb)
    case (ScoreKey(ha, _, _, _), ScoreKey(hb, _, _, _)) =>
      var left, right := a.Fee() * b.size, b.Fee() * a.size;
      right < left || (right == left && ha < hb)
    case _ => a.TimeKey?
  }

  /** `Ord::cmp` says Equal. */
  predicate Same(a: OrderKey, b: OrderKey) {
    !Before(a, b) && !Before(b, a)
  }

  predicate Sized(a: OrderKey) {
    a.ScoreKey? ==> a.size > 0
  }

  /** Fractions with positive denominators: `fa/sa > fb/sb >= fc/sc` and the like. */
  lemma {:induction false} ScoreTransitive(fa: int, sa: nat, fb: int, sb: nat, fc: int, sc: nat)
    requires sa > 0 && sb > 0 && sc > 0
    requires fa * sb >= fb * sa && fb * sc >= fc * sb
    ensures fa * sc >= fc * sa
    ensures fa * sb > fb * sa || fb * sc > fc * sb ==> fa * sc > fc * sa
  {
  }

  /** On keys with positive sizes the comparison is a strict total order: irreflexive, transitive,
      and two different hashes always compare. */
  lemma {:induction false} BeforeTransitive(a: OrderKey, b: OrderKey, c: OrderKey)
    requires Sized(a) && Sized(b) && Sized(c)
    requires Before(a, b) && Before(b, c)
    ensures Before(a, c)
  {
  }

  lemma {:induction false} BeforeTotal(a: OrderKey, b: OrderKey)
    ensures !(Before(a, b) && Before(b, a))
    ensures a.hash != b.hash ==> Before(a, b) || Before(b, a)
    ensures !Before(a, a)
  {
  }

  // ---------------------------------------------------------------------------------------------
  // Ordered sets. Like `BTreeSet`, they identify keys that compare as equal.

  predicate Contains(keys: set<OrderKey>, k: OrderKey) {
    exists k' :: k' in keys && Same(k', k)
  }

  function Insert(keys: set<OrderKey>, k: OrderKey): set<OrderKey> {
    if Contains(keys, k) then keys else keys + {k}
  }

  function Remove(keys: set<OrderKey>, k: OrderKey): set<OrderKey> {
    set k' | k' in keys && !Same(k', k)
  }

  /** No two keys share a hash. */
  ghost predicate OnePerHash(keys: set<OrderKey>) {
    forall k, k' :: k in keys && k' in keys && k.hash == k'.hash ==> k == k'
  }

  /** As long as each hash has one key, the ordered set is an ordinary set. */
  lemma {:induction false} PlainSet(keys: set<OrderKey>, k: OrderKey)
    requires OnePerHash(keys + {k})
    ensures Insert(keys, k) == keys + {k}
    ensures Remove(keys, k) == keys - {k}
    ensures Contains(keys, k) <==> k in keys
  {
  }

  /** The first key: before every other one. */
  ghost predicate IsFirst(keys: set<OrderKey>, k: OrderKey) {
    k in keys && forall k' :: k' in keys && k' != k ==> Before(k, k')
  }

  ghost predicate AllSized(keys: set<OrderKey>) {
    forall k :: k in keys ==> Sized(k)
  }

  /** What iterating the ordered set yields first. */
  method First(keys: set<OrderKey>) returns (r: Option<OrderKey>)
    requires OnePerHash(keys) && AllSized(keys)
    ensures r.None? <==> keys == {}
    ensures r.Some? ==> IsFirst(keys, r.value)
  {
    if keys == {} {
      return None;
    }
    var best :| best in keys;
    var rest := keys - {best};
    while rest != {}
      invariant best in keys && rest <= keys
      invariant forall k :: k in keys && k !in rest && k != best ==> Before(best, k)
    {
      var k :| k in rest;
      BeforeTotal(best, k);
      if Before(k, best) {
        forall k' | k' in keys && k' !in rest - {k} && k' != k
          ensures Before(k, k')
        {
          if k' != best {
            BeforeTransitive(k, best, k');
          }
        }
        best := k;
      }
      rest := rest - {k};
    }
    r := Some(best);
  }

  lemma {:induction false} FirstUnique(keys: set<OrderKey>, a: OrderKey, b: OrderKey)
    requires IsFirst(keys, a) && IsFirst(keys, b)
    ensures a == b
  {
  }
}
