/** Merkle roots (chain/src/merkle_root.rs): the row-by-row computation, the tree it stands for, and
    what a root binds. `node` is the hash of two children. */
module Merkle {
  import opened Primitives
  import opened TransactionCodec

  // ---------------------------------------------------------------------------------------------
  // Rows.

  /** The `i`th pair of a row; the last element of an odd row is paired with itself. */
  function Pair<T>(hashes: seq<T>, i: nat): (T, T)
    requires 2 * i < |hashes|
  {
    (hashes[2 * i], if 2 * i + 1 < |hashes| then hashes[2 * i + 1] else hashes[2 * i])
  }

  function Pairs<T>(hashes: seq<T>): (r: seq<(T, T)>)
    ensures |r| == (|hashes| + 1) / 2
  {
    seq((|hashes| + 1) / 2, i requires 0 <= i < (|hashes| + 1) / 2 => Pair(hashes, i))
  }

  function Level<T>(node: (T, T) -> T, hashes: seq<T>): (r: seq<T>)
    ensures |r| == (|hashes| + 1) / 2
  {
    seq((|hashes| + 1) / 2, i requires 0 <= i < (|hashes| + 1) / 2 => var p := Pair(hashes, i); node(p.0, p.1))
  }

  function Root<T>(node: (T, T) -> T, hashes: seq<T>): T
    requires hashes != []
    decreases |hashes|
  {
    if |hashes| == 1 then hashes[0] else Root(node, Level(node, hashes))
  }

  /** `merkle_root`; on an empty list the source does not return. */
  method MerkleRoot<T>(node: (T, T) -> T, hashes: seq<T>) returns (root: T)
    requires hashes != []
    ensures root == Root(node, hashes)
    decreases |hashes|
  {
    if |hashes| == 1 {
      return hashes[0];
    }
    var row: seq<(T, T)>, i := [], 0;
    while i + 1 < |hashes|
      invariant 0 <= i <= |hashes| && i == 2 * |row| && row == Pairs(hashes)[..|row|]
      decreases |hashes| - i
    {
      assert Pairs(hashes)[|row|] == (hashes[i], hashes[i + 1]);
      row := row + [(hashes[i], hashes[i + 1])];
      i := i + 2;
    }
    if |hashes| % 2 == 1 {
      var last := hashes[|hashes| - 1];
      assert Pairs(hashes)[|row|] == (last, last);
      row := row + [(last, last)];
    }
    assert row == Pairs(hashes);
    var res := seq(|row|, k requires 0 <= k < |row| => node(row[k].0, row[k].1));
    assert res == Level(node, hashes);
    root := MerkleRoot(node, res);
  }

  // ---------------------------------------------------------------------------------------------
  // The tree, split from the top.

  function Pow2(h: nat): (p: nat)
    ensures p > 0
  {
    if h == 0 then 1 else 2 * Pow2(h - 1)
  }

  /** A tree of height `h` over at most 2^h leaves; a half without leaves of its own repeats the other. */
  function Tree<T>(node: (T, T) -> T, leaves: seq<T>, h: nat): T
    requires 0 < |leaves| <= Pow2(h)
    decreases h
  {
    if h == 0 then leaves[0]
    else
      var half := Pow2(h - 1);
      if |leaves| <= half then
        var left := Tree(node, leaves, h - 1);
        node(left, left)
      else node(Tree(node, leaves[..half], h - 1), Tree(node, leaves[half..], h - 1))
  }

  /** The least height with room for `n` leaves. */
  function Height(n: nat): (h: nat)
    requires n > 0
    ensures n <= Pow2(h) && (h > 0 ==> Pow2(h - 1) < n)
  {
    if n == 1 then 0 else 1 + Height((n + 1) / 2)
  }

  lemma {:induction false} LevelSplits<T>(node: (T, T) -> T, hashes: seq<T>, k: nat)
    requires 2 * k <= |hashes|
    ensures Level(node, hashes[..2 * k]) == Level(node, hashes)[..k]
    ensures Level(node, hashes[2 * k..]) == Level(node, hashes)[k..]
  {
    var right := hashes[2 * k..];
    forall i | 0 <= i < |Level(node, right)|
      ensures Pair(right, i) == Pair(hashes, k + i)
    {
    }
    assert forall i :: 0 <= i < k ==> Pair(hashes[..2 * k], i) == Pair(hashes, i);
  }

  /** Hashing one row is taking one level off the bottom of the tree. */
  lemma {:induction false} RowIsBottom<T>(node: (T, T) -> T, hashes: seq<T>, h: nat)
    requires 0 < |hashes| <= Pow2(h + 1)
    ensures Tree(node, hashes, h + 1) == Tree(node, Level(node, hashes), h)
    decreases h
  {
    if h > 0 {
      var k := Pow2(h - 1);
      var up := Level(node, hashes);
      if |hashes| <= 2 * k {
        RowIsBottom(node, hashes, h - 1);
      } else {
        LevelSplits(node, hashes, k);
        RowIsBottom(node, hashes[..2 * k], h - 1);
        RowIsBottom(node, hashes[2 * k..], h - 1);
      }
    } else {
      var up := Level(node, hashes);
      assert up[0] == var p := Pair(hashes, 0); node(p.0, p.1);
    }
  }

  /** The row-by-row root is the root of the recursively split tree. */
  lemma {:induction false} RootIsTree<T>(node: (T, T) -> T, hashes: seq<T>)
    requires hashes != []
    ensures Root(node, hashes) == Tree(node, hashes, Height(|hashes|))
    decreases |hashes|
  {
    if |hashes| > 1 {
      RootIsTree(node, Level(node, hashes));
      RowIsBottom(node, hashes, Height(|hashes|) - 1);
    }
  }

  // ---------------------------------------------------------------------------------------------
  // What a root binds.

  /** Every pair of children hashed on the way to the root. */
  function HashedPairs<T(==)>(node: (T, T) -> T, hashes: seq<T>): set<(T, T)>
    requires hashes != []
    decreases |hashes|
  {
    if |hashes| == 1 then {}
    else (set p | p in Pairs(hashes)) + HashedPairs(node, Level(node, hashes))
  }

  ghost predicate NoCollisions<T(!new)>(node: (T, T) -> T, pairs: set<(T, T)>) {
    forall p, q :: p in pairs && q in pairs && node(p.0, p.1) == node(q.0, q.1) ==> p == q
  }

  /** Lists of one length with one root are equal, if no two pairs hashed for them collide. */
  lemma {:induction false} RootBinds<T(!new)>(node: (T, T) -> T, xs: seq<T>, ys: seq<T>)
    requires |xs| == |ys| > 0 && Root(node, xs) == Root(node, ys)
    requires NoCollisions(node, HashedPairs(node, xs) + HashedPairs(node, ys))
    ensures xs == ys
    decreases |xs|
  {
    if |xs| > 1 {
      var us, vs := Level(node, xs), Level(node, ys);
      assert HashedPairs(node, us) <= HashedPairs(node, xs) && HashedPairs(node, vs) <= HashedPairs(node, ys);
      RootBinds(node, us, vs);
      LevelBinds(node, xs, ys, HashedPairs(node, xs) + HashedPairs(node, ys));
    } else {
      assert xs == [xs[0]] && ys == [ys[0]];
    }
  }

  lemma {:induction false} LevelBinds<T(!new)>(node: (T, T) -> T, xs: seq<T>, ys: seq<T>, pairs: set<(T, T)>)
    requires |xs| == |ys| && Level(node, xs) == Level(node, ys) && NoCollisions(node, pairs)
    requires forall p :: p in Pairs(xs) || p in Pairs(ys) ==> p in pairs
    ensures xs == ys
  {
    forall k | 0 <= k < |xs|
      ensures xs[k] == ys[k]
    {
      var i := k / 2;
      assert Pairs(xs)[i] == Pair(xs, i) && Pairs(ys)[i] == Pair(ys, i);
      assert Level(node, xs)[i] == Level(node, ys)[i];
    }
  }

  /** Lists of different lengths can share a root whatever the hash: repeating the last element of an
      odd list does not change it. */
  lemma {:induction false} RepeatedTail<T>(node: (T, T) -> T, hashes: seq<T>)
    requires |hashes| % 2 == 1 && |hashes| > 1
    ensures Root(node, hashes + [hashes[|hashes| - 1]]) == Root(node, hashes)
  {
    var longer := hashes + [hashes[|hashes| - 1]];
    assert forall i :: 0 <= i < |Pairs(hashes)| ==> Pair(longer, i) == Pair(hashes, i);
    assert Level(node, longer) == Level(node, hashes);
  }

  // ---------------------------------------------------------------------------------------------
  // The node hash of the source.

  function NodeHash(dhash: seq<byte> -> H256, left: H256, right: H256): H256 {
    dhash(HashBytes(left) + HashBytes(right))
  }

  /** Two nodes collide only if two different strings of 64 bytes do. */
  lemma {:induction false} NodeCollision(dhash: seq<byte> -> H256, p: (H256, H256), q: (H256, H256))
    requires p != q && NodeHash(dhash, p.0, p.1) == NodeHash(dhash, q.0, q.1)
    ensures var x, y := HashBytes(p.0) + HashBytes(p.1), HashBytes(q.0) + HashBytes(q.1);
            x != y && |x| == |y| == 64 && dhash(x) == dhash(y)
  {
    hide HashBytes;
    HashesConcat(p.0, p.1, q.0, q.1);
  }

  lemma {:induction false} HashesConcat(a: H256, b: H256, c: H256, d: H256)
    ensures HashBytes(a) + HashBytes(b) == HashBytes(c) + HashBytes(d) ==> a == c && b == d
  {
    hide HashBytes, ReadHash;
    HashReads(a);
    HashReads(b);
    HashReads(c);
    HashReads(d);
    assert ReadHash(HashBytes(a) + HashBytes(b)) == Ok((a, HashBytes(b)));
    assert ReadHash(HashBytes(c) + HashBytes(d)) == Ok((c, HashBytes(d)));
    assert ReadHash(HashBytes(b) + []) == Ok((b, []));
    assert ReadHash(HashBytes(d) + []) == Ok((d, []));
  }
}
