/** Where a new header attaches to the stored blocks, and what forking there does
    (db/src/block_chain_db.rs:125-199). */
module SideChains {
  import opened Primitives
  import opened Chain
  import opened KeyValue
  import opened SpentIndex
  import opened ChainStore
  import opened CanonicalChain

  // ---------------------------------------------------------------------------------------------
  // Block origin.

  /** The walk from a block back to the canonical chain: the side blocks passed, oldest first, and the
      canonical block reached; or a missing header; or neither within the permitted length. */
  datatype Walk =
    | Reached(route: seq<H256>, anchor: H256)
    | Orphan
    | TooLong

  function Extended(w: Walk, newer: seq<H256>): Walk {
    if w.Reached? then Reached(w.route + newer, w.anchor) else w
  }

  function WalkBack(db: Columns, h: H256, limit: nat): (w: Walk)
    ensures w.Reached? ==> w.anchor in db.blockNumber && |w.route| < limit
    decreases limit
  {
    if limit == 0 then TooLong
    else if h in db.blockNumber then Reached([], h)
    else if h !in db.blockHeader then Orphan
    else Extended(WalkBack(db, db.blockHeader[h].previousHeaderHash, limit - 1), [h])
  }

  /** The hashes indexed at heights `low` up to but not including `high`; heights without one are skipped. */
  function IndexedHashes(db: Columns, low: nat, high: nat): seq<H256>
    decreases high
  {
    if high <= low then []
    else IndexedHashes(db, low, high - 1) + (if high - 1 in db.blockHash then [db.blockHash[high - 1]] else [])
  }

  /** What `block_origin` reports for a header with this hash and parent. */
  function OriginOf(s: Store, hash: H256, parent: H256): Result<BlockOrigin, Error> {
    if !(s.best.number in s.db.blockHash && s.db.blockHash[s.best.number] == s.best.hash) then Err(AssertionFailed)
    else if hash in s.db.blockHeader then Ok(KnownBlock)
    else if parent == s.best.hash then Ok(CanonChain(s.best.number + 1))
    else if parent !in s.db.blockHeader then Err(UnknownParent)
    else
      match WalkBack(s.db, parent, MAX_FORK_ROUTE_PRESET)
      case TooLong => Err(AncientFork)
      case Orphan => Err(AssertionFailed)
      case Reached(route, anchor) =>
        var n := s.db.blockNumber[anchor];
        var o := SideChainOrigin(n, route, IndexedHashes(s.db, n + 1, s.best.number + 1), n + |route| + 1);
        if o.blockNumber > s.best.number then Ok(SideChainBecomingCanonChain(o)) else Ok(SideChain(o))
  }

  // ---------------------------------------------------------------------------------------------
  // Ancestors.

  /** The block `i` parent links before `h`, as long as the headers on the way are stored. */
  ghost function AncestorAt(db: Columns, h: H256, i: nat): Option<H256>
    decreases i
  {
    if i == 0 then Some(h)
    else if h in db.blockHeader then AncestorAt(db, db.blockHeader[h].previousHeaderHash, i - 1)
    else None
  }

  ghost predicate SideAt(db: Columns, h: H256, i: nat) {
    var a := AncestorAt(db, h, i);
    a.Some? && a.value in db.blockHeader && a.value !in db.blockNumber
  }

  /** The `n` blocks from `h` back are stored and not canonical. */
  ghost predicate SideFor(db: Columns, h: H256, n: nat) {
    forall i :: 0 <= i < n ==> SideAt(db, h, i)
  }

  /** After `n` side blocks comes a hash that is neither canonical nor stored. */
  ghost predicate FallsOff(db: Columns, h: H256, n: nat) {
    var a := AncestorAt(db, h, n);
    SideFor(db, h, n) && a.Some? && a.value !in db.blockNumber && a.value !in db.blockHeader
  }

  /** After `n` side blocks comes the canonical block `anchor`. */
  ghost predicate Arrives(db: Columns, h: H256, n: nat, anchor: H256) {
    SideFor(db, h, n) && AncestorAt(db, h, n) == Some(anchor) && anchor in db.blockNumber
  }

  lemma {:induction false} AncestorSum(db: Columns, h: H256, i: nat, j: nat)
    requires AncestorAt(db, h, i).Some?
    ensures AncestorAt(db, h, i + j) == AncestorAt(db, AncestorAt(db, h, i).value, j)
    decreases i
  {
    if i > 0 {
      AncestorSum(db, db.blockHeader[h].previousHeaderHash, i - 1, j);
    }
  }

  lemma {:induction false} SideStep(db: Columns, h: H256, n: nat)
    requires h in db.blockHeader && h !in db.blockNumber
    ensures SideFor(db, h, n + 1) <==> SideFor(db, db.blockHeader[h].previousHeaderHash, n)
  {
    var parent := db.blockHeader[h].previousHeaderHash;
    assert SideAt(db, h, 0);
    assert forall i :: 0 <= i < n ==> (SideAt(db, parent, i) <==> SideAt(db, h, i + 1));
    if SideFor(db, parent, n) {
      forall i | 0 <= i < n + 1
        ensures SideAt(db, h, i)
      {
        assert i > 0 ==> SideAt(db, parent, i - 1);
      }
    }
  }

  /** What the walk says is so: it stops at the first canonical block, or at the first missing header. */
  lemma {:induction false} WalkTells(db: Columns, h: H256, limit: nat)
    ensures var w := WalkBack(db, h, limit);
            match w
            case Reached(route, anchor) => Arrives(db, h, |route|, anchor)
            case Orphan => exists n :: 0 <= n < limit && FallsOff(db, h, n)
            case TooLong => SideFor(db, h, limit)
    decreases limit
  {
    if limit > 0 && h !in db.blockNumber {
      if h in db.blockHeader {
        var parent := db.blockHeader[h].previousHeaderHash;
        WalkTells(db, parent, limit - 1);
        var w := WalkBack(db, parent, limit - 1);
        match w
        case Reached(route, anchor) =>
          SideStep(db, h, |route|);
        case TooLong =>
          SideStep(db, h, limit - 1);
        case Orphan =>
          var n :| 0 <= n < limit - 1 && FallsOff(db, parent, n);
          SideStep(db, h, n);
          assert FallsOff(db, h, n + 1);
      } else {
        assert FallsOff(db, h, 0);
      }
    }
  }

  /** The other way round: what lies within the limit makes the walk say so. */
  lemma {:induction false} WalkFallsOff(db: Columns, h: H256, limit: nat, n: nat)
    requires n < limit && FallsOff(db, h, n)
    ensures WalkBack(db, h, limit).Orphan?
    decreases limit
  {
    if n > 0 {
      assert SideAt(db, h, 0);
      SideStep(db, h, n - 1);
      WalkFallsOff(db, db.blockHeader[h].previousHeaderHash, limit - 1, n - 1);
    }
  }

  lemma {:induction false} WalkArrives(db: Columns, h: H256, limit: nat, n: nat, anchor: H256)
    requires n < limit && Arrives(db, h, n, anchor)
    ensures WalkBack(db, h, limit).Reached?
    decreases limit
  {
    if n > 0 {
      assert SideAt(db, h, 0);
      SideStep(db, h, n - 1);
      WalkArrives(db, db.blockHeader[h].previousHeaderHash, limit - 1, n - 1, anchor);
    }
  }

  lemma {:induction false} WalkTooLong(db: Columns, h: H256, limit: nat)
    requires SideFor(db, h, limit)
    ensures WalkBack(db, h, limit).TooLong?
    decreases limit
  {
    if limit > 0 {
      assert SideAt(db, h, 0);
      SideStep(db, h, limit - 1);
      WalkTooLong(db, db.blockHeader[h].previousHeaderHash, limit - 1);
    }
  }

  // ---------------------------------------------------------------------------------------------
  // Exactly when each answer is given.

  /** `h` is `n` parent links away from a block without parent. */
  ghost predicate HasDepth(db: Columns, h: H256, n: nat) {
    var a := AncestorAt(db, h, n);
    a.Some? && a.value in db.blockHeader && db.blockHeader[a.value].previousHeaderHash == ZERO_HASH
  }

  lemma {:induction false} DepthUnique(db: Columns, h: H256, m: nat, n: nat)
    requires ZERO_HASH !in db.blockHeader && HasDepth(db, h, m) && HasDepth(db, h, n)
    ensures m == n
    decreases m
  {
    RootDepth(db, h, m);
    RootDepth(db, h, n);
    if m > 0 && n > 0 {
      DepthUnique(db, db.blockHeader[h].previousHeaderHash, m - 1, n - 1);
    }
  }

  lemma {:induction false} RootDepth(db: Columns, h: H256, n: nat)
    requires ZERO_HASH !in db.blockHeader
    ensures HasDepth(db, h, 0) && HasDepth(db, h, n) ==> n == 0
  {
    assert n > 0 && HasDepth(db, h, 0) ==> AncestorAt(db, h, n) == AncestorAt(db, ZERO_HASH, n - 1);
    assert n > 1 ==> AncestorAt(db, ZERO_HASH, n - 1) == None;
  }

  /** A canonical block's height is its depth, and its ancestors are the canonical blocks below it. */
  lemma {:induction false} CanonicalDepth(s: Store, hs: seq<H256>, n: nat)
    requires Skeleton(s, hs) && n < |hs|
    ensures AncestorAt(s.db, hs[n], n) == Some(hs[0]) && HasDepth(s.db, hs[n], n)
  {
    assert CanonAt(s.db, hs, n) && CanonAt(s.db, hs, 0);
    if n > 0 {
      CanonicalDepth(s, hs, n - 1);
    }
  }

  /** The walk is made: the header is new, and its parent is stored but not the best block. */
  predicate Walks(s: Store, hash: H256, parent: H256) {
    hash !in s.db.blockHeader && parent != s.best.hash && parent in s.db.blockHeader
  }

  lemma {:induction false} BestIndexed(s: Store, hs: seq<H256>)
    requires Skeleton(s, hs)
    ensures s.best.number in s.db.blockHash && s.db.blockHash[s.best.number] == s.best.hash <==> hs != []
  {
    assert hs != [] ==> CanonAt(s.db, hs, |hs| - 1);
  }

  /** `block_origin` panics exactly on a store without blocks, and when fewer than 2048 side blocks
      before the header end in one whose parent is missing. */
  lemma {:induction false} OriginPanics(s: Store, hs: seq<H256>, hash: H256, parent: H256)
    requires Skeleton(s, hs)
    ensures OriginOf(s, hash, parent) == Err(AssertionFailed) <==>
            hs == [] || (Walks(s, hash, parent) && exists n :: 0 <= n < MAX_FORK_ROUTE_PRESET && FallsOff(s.db, parent, n))
  {
    hide WalkBack, FallsOff, Skeleton;
    BestIndexed(s, hs);
    WalkTells(s.db, parent, MAX_FORK_ROUTE_PRESET);
    forall n | 0 <= n < MAX_FORK_ROUTE_PRESET && FallsOff(s.db, parent, n)
      ensures WalkBack(s.db, parent, MAX_FORK_ROUTE_PRESET).Orphan?
    {
      WalkFallsOff(s.db, parent, MAX_FORK_ROUTE_PRESET, n);
    }
  }

  /** `AncientFork` is reported exactly when the 2048 blocks before the header are stored side blocks. */
  lemma {:induction false} AncientExactly(s: Store, hs: seq<H256>, hash: H256, parent: H256)
    requires Skeleton(s, hs)
    ensures OriginOf(s, hash, parent) == Err(AncientFork) <==>
            hs != [] && Walks(s, hash, parent) && SideFor(s.db, parent, MAX_FORK_ROUTE_PRESET)
  {
    hide WalkBack, SideFor, Skeleton;
    BestIndexed(s, hs);
    WalkTells(s.db, parent, MAX_FORK_ROUTE_PRESET);
    if SideFor(s.db, parent, MAX_FORK_ROUTE_PRESET) {
      WalkTooLong(s.db, parent, MAX_FORK_ROUTE_PRESET);
    }
  }

  ghost predicate Reports(s: Store, hash: H256, parent: H256, o: SideChainOrigin) {
    var r := OriginOf(s, hash, parent);
    r == Ok(SideChain(o)) || r == Ok(SideChainBecomingCanonChain(o))
  }

  /** A side chain is reported exactly when fewer than 2048 side blocks lie between the header and the
      canonical chain. */
  lemma {:induction false} ReportedExactly(s: Store, hs: seq<H256>, hash: H256, parent: H256)
    requires Skeleton(s, hs)
    ensures (exists o :: Reports(s, hash, parent, o)) <==>
            hs != [] && Walks(s, hash, parent) && exists n, anchor :: 0 <= n < MAX_FORK_ROUTE_PRESET && Arrives(s.db, parent, n, anchor)
  {
    hide WalkBack, Arrives, Skeleton, IndexedHashes;
    BestIndexed(s, hs);
    WalkTells(s.db, parent, MAX_FORK_ROUTE_PRESET);
    forall n, anchor | 0 <= n < MAX_FORK_ROUTE_PRESET && Arrives(s.db, parent, n, anchor)
      ensures WalkBack(s.db, parent, MAX_FORK_ROUTE_PRESET).Reached?
    {
      WalkArrives(s.db, parent, MAX_FORK_ROUTE_PRESET, n, anchor);
    }
    var r := OriginOf(s, hash, parent);
    if r.Ok? && (r.value.SideChain? || r.value.SideChainBecomingCanonChain?) {
      assert Reports(s, hash, parent, r.value.origin);
    }
  }

  lemma {:induction false} IndexedSuffix(s: Store, hs: seq<H256>, low: nat, high: nat)
    requires Skeleton(s, hs) && low <= high <= |hs|
    ensures IndexedHashes(s.db, low, high) == hs[low..high]
    decreases high
  {
    if low < high {
      IndexedSuffix(s, hs, low, high - 1);
      assert CanonAt(s.db, hs, high - 1);
    }
  }

  /** The route of a reported origin leads from the canonical block at height `ancestor` to `parent`. */
  ghost predicate LeadsTo(db: Columns, hs: seq<H256>, o: SideChainOrigin, parent: H256) {
    var route := o.canonizedRoute;
    && o.ancestor < |hs| && o.decanonizedRoute == hs[o.ancestor + 1..]
    && parent == (if route == [] then hs[o.ancestor] else route[|route| - 1])
    && forall i :: 0 <= i < |route| ==> LinkedAt(db, hs[o.ancestor], route, i)
  }

  ghost predicate LinkedAt(db: Columns, anchor: H256, route: seq<H256>, i: nat)
    requires i < |route|
  {
    && route[i] in db.blockHeader && route[i] !in db.blockNumber
    && db.blockHeader[route[i]].previousHeaderHash == (if i == 0 then anchor else route[i - 1])
  }

  lemma {:induction false} WalkLinks(db: Columns, h: H256, limit: nat)
    requires WalkBack(db, h, limit).Reached?
    ensures var w := WalkBack(db, h, limit);
            && h == (if w.route == [] then w.anchor else w.route[|w.route| - 1])
            && forall i :: 0 <= i < |w.route| ==> LinkedAt(db, w.anchor, w.route, i)
    decreases limit
  {
    if h !in db.blockNumber {
      var parent := db.blockHeader[h].previousHeaderHash;
      WalkLinks(db, parent, limit - 1);
      var below, w := WalkBack(db, parent, limit - 1), WalkBack(db, h, limit);
      forall i | 0 <= i < |w.route|
        ensures LinkedAt(db, w.anchor, w.route, i)
      {
        if i < |below.route| {
          assert LinkedAt(db, below.anchor, below.route, i);
        }
      }
    }
  }

  /** What a report says: the number is the header's depth, the routes lead from the end of the canonical
      chain over the nearest canonical ancestor to the parent, and the side chain becomes canonical
      exactly when the header is deeper than the best block. */
  lemma {:induction false} ReportIsTrue(s: Store, hs: seq<H256>, hash: H256, parent: H256, o: SideChainOrigin)
    requires Skeleton(s, hs)
    ensures Reports(s, hash, parent, o) ==>
              && o.blockNumber > 0 && HasDepth(s.db, parent, o.blockNumber - 1)
              && o.blockNumber == o.ancestor + |o.canonizedRoute| + 1 && LeadsTo(s.db, hs, o, parent)
              && (OriginOf(s, hash, parent) == Ok(SideChainBecomingCanonChain(o)) <==> o.blockNumber > s.best.number)
  {
    hide WalkBack, IndexedHashes, CanonAt, LinkedAt, HasDepth;
    var w := WalkBack(s.db, parent, MAX_FORK_ROUTE_PRESET);
    if Reports(s, hash, parent, o) {
      BestIndexed(s, hs);
      WalkTells(s.db, parent, MAX_FORK_ROUTE_PRESET);
      WalkLinks(s.db, parent, MAX_FORK_ROUTE_PRESET);
      CanonicalNumber(s, hs, w.anchor);
      IndexedSuffix(s, hs, o.ancestor + 1, |hs|);
      assert hs[o.ancestor + 1..|hs|] == hs[o.ancestor + 1..];
      SideDepth(s, hs, parent, |w.route|, o.ancestor);
    }
  }

  lemma {:induction false} CanonicalNumber(s: Store, hs: seq<H256>, h: H256)
    requires Skeleton(s, hs) && h in s.db.blockNumber
    ensures s.db.blockNumber[h] < |hs| && hs[s.db.blockNumber[h]] == h
  {
    var i :| 0 <= i < |hs| && hs[i] == h;
    assert CanonAt(s.db, hs, i);
  }

  lemma {:induction false} SideDepth(s: Store, hs: seq<H256>, parent: H256, n: nat, height: nat)
    requires Skeleton(s, hs) && height < |hs| && AncestorAt(s.db, parent, n) == Some(hs[height])
    ensures HasDepth(s.db, parent, height + n)
  {
    CanonicalDepth(s, hs, height);
    AncestorSum(s.db, parent, n, height);
  }

  // ---------------------------------------------------------------------------------------------
  // Forking on a reported origin.

  /** A route that is the end of the canonical chain is undone block by block as listed. */
  lemma {:induction false} SuffixUndone(s: Store, hs: seq<H256>, keep: nat)
    requires Skeleton(s, hs) && keep <= |hs|
    ensures DecanonizeRoute(s, hs[keep..]) != Err(AssertionFailed)
    decreases |hs|
  {
    hide Skeleton, Decanonize;
    var route, n := hs[keep..], |hs| - 1;
    if route != [] {
      DecanonizeKeepsSkeleton(s, hs);
      var r := Decanonize(s);
      if r.Ok? {
        assert route[..|route| - 1] == hs[..n][keep..];
        SuffixUndone(r.value.0, hs[..n], keep);
      }
    }
  }

  /** The fork asserts nothing false, and if it succeeds it ends on `best` with the skeleton of the new chain. */
  ghost predicate LandsOn(s: Store, hs: seq<H256>, o: SideChainOrigin, best: BestBlock) {
    && o.ancestor < |hs| && Fork(s, o) != Err(AssertionFailed)
    && (Fork(s, o).Ok? ==>
          Fork(s, o).value.best == best && Skeleton(Fork(s, o).value, hs[..o.ancestor + 1] + o.canonizedRoute))
  }

  /** `fork` on a reported side-chain origin never trips its route assertion, and when it succeeds the
      header's parent is the best block, at its own depth. */
  lemma {:induction false} ForkReachesParent(s: Store, hs: seq<H256>, hash: H256, parent: H256, o: SideChainOrigin)
    requires Skeleton(s, hs)
    ensures Reports(s, hash, parent, o) ==>
              o.blockNumber > 0 && HasDepth(s.db, parent, o.blockNumber - 1) && LandsOn(s, hs, o, BestBlock(o.blockNumber - 1, parent))
  {
    hide Skeleton, OriginOf, DecanonizeRoute, CanonizeRoute, HasDepth, LinkedAt;
    ReportIsTrue(s, hs, hash, parent, o);
    if Reports(s, hash, parent, o) {
      ReopenRestores(s, hs);
      var keep := o.ancestor + 1;
      SuffixUndone(s, hs, keep);
      DecanonizeRouteKeepsSkeleton(s, hs, o.decanonizedRoute);
      var undone := DecanonizeRoute(s, o.decanonizedRoute);
      if undone.Ok? {
        CanonizeRouteKeepsSkeleton(undone.value, hs[..keep], o.canonizedRoute);
        var target := hs[..keep] + o.canonizedRoute;
        if Fork(s, o).Ok? {
          SkeletonBest(Fork(s, o).value, target);
          assert target[|target| - 1] == parent;
        }
      }
    }
  }

  lemma {:induction false} SkeletonBest(s: Store, hs: seq<H256>)
    requires Skeleton(s, hs)
    ensures s.best == BestOf(hs)
  {
  }

  /** So in every store reached by any run: a reported fork is safe, and lands on the header's parent. */
  lemma {:induction false} RunsForkSafely(steps: seq<Step>, hash: H256, parent: H256, o: SideChainOrigin)
    requires forall i :: 0 <= i < |steps| && steps[i].DoInsert? ==> steps[i].block.hash != ZERO_HASH
    ensures var s := Final(EMPTY_STORE, steps);
            Reports(s, hash, parent, o) ==>
              && o.blockNumber > 0 && HasDepth(s.db, parent, o.blockNumber - 1) && Fork(s, o) != Err(AssertionFailed)
              && (Fork(s, o).Ok? ==> Fork(s, o).value.best == BestBlock(o.blockNumber - 1, parent))
  {
    hide Skeleton, Reports, Fork, Next;
    EmptyStoreHasSkeleton();
    RunsKeepSkeleton(EMPTY_STORE, steps);
    var hs :| Skeleton(Final(EMPTY_STORE, steps), hs);
    ForkReachesParent(Final(EMPTY_STORE, steps), hs, hash, parent, o);
  }

  lemma {:induction false} RouteFollows(s: Store, hs: seq<H256>, o: SideChainOrigin, parent: H256, blocks: seq<IndexedBlock>)
    requires LeadsTo(s.db, hs, o, parent) && BlockHashes(blocks) == o.canonizedRoute && StoredBlocks(s.db, blocks)
    ensures Follows(hs[o.ancestor], blocks)
  {
    forall i | 0 <= i < |blocks|
      ensures FollowsAt(hs[o.ancestor], blocks, i)
    {
      assert LinkedAt(s.db, hs[o.ancestor], o.canonizedRoute, i);
      assert blocks[i].hash == BlockHashes(blocks)[i] && StoredBlock(s.db, blocks[i]);
      assert i > 0 ==> blocks[i - 1].hash == BlockHashes(blocks)[i - 1];
    }
  }

  /** When the route consists of stored blocks that are valid in order, the fork succeeds and the
      store it leaves is the replay of the new chain. */
  lemma {:induction false} ForkOnValidBranch(
    s: Store, chain: seq<IndexedBlock>, hash: H256, parent: H256, o: SideChainOrigin, blocks: seq<IndexedBlock>)
    requires Canonical(s, chain) && StoredBlocks(s.db, blocks) && BlockHashes(blocks) == o.canonizedRoute
    ensures Reports(s, hash, parent, o) ==>
              o.ancestor < |chain| &&
              (ValidChain(chain[..o.ancestor + 1] + blocks) ==>
                 Fork(s, o).Ok? && Canonical(Fork(s, o).value, chain[..o.ancestor + 1] + blocks))
  {
    hide Replayed, ValidChain, Fork, Skeleton, StoredBlocks, Follows, HasDepth, OriginOf, LinkedAt;
    var hs := BlockHashes(chain);
    ReportIsTrue(s, hs, hash, parent, o);
    if Reports(s, hash, parent, o) && ValidChain(chain[..o.ancestor + 1] + blocks) {
      RouteFollows(s, hs, o, parent, blocks);
      assert o.decanonizedRoute == BlockHashes(chain[o.ancestor + 1..]);
      ForkSwitches(s, chain, o.ancestor + 1, blocks, o);
    }
  }

  // ---------------------------------------------------------------------------------------------
  // Stores on which nothing panics.

  ghost predicate ParentsStored(headers: map<H256, BlockHeader>) {
    forall h :: h in headers ==> headers[h].previousHeaderHash == ZERO_HASH || headers[h].previousHeaderHash in headers
  }

  ghost predicate IsRoot(headers: map<H256, BlockHeader>, h: H256) {
    h in headers && headers[h].previousHeaderHash == ZERO_HASH
  }

  /** Every stored block has its parent stored, and there is at most one genesis. */
  ghost predicate Rooted(headers: map<H256, BlockHeader>) {
    && ZERO_HASH !in headers && ParentsStored(headers)
    && (forall h, h' :: IsRoot(headers, h) && IsRoot(headers, h') ==> h == h')
  }

  /** On a rooted store with at least one canonical block, `block_origin` never panics. */
  lemma {:induction false} RootedNeverPanics(s: Store, hs: seq<H256>, hash: H256, parent: H256)
    requires Skeleton(s, hs) && hs != [] && Rooted(s.db.blockHeader)
    ensures OriginOf(s, hash, parent) != Err(AssertionFailed)
  {
    BestIndexed(s, hs);
    if parent in s.db.blockHeader {
      RootedWalk(s, hs, parent, MAX_FORK_ROUTE_PRESET);
    }
  }

  lemma {:induction false} RootedWalk(s: Store, hs: seq<H256>, h: H256, limit: nat)
    requires Skeleton(s, hs) && hs != [] && Rooted(s.db.blockHeader) && h in s.db.blockHeader
    ensures !WalkBack(s.db, h, limit).Orphan?
    decreases limit
  {
    if limit > 0 && h !in s.db.blockNumber {
      RootIsCanonical(s, hs, h);
      RootedWalk(s, hs, s.db.blockHeader[h].previousHeaderHash, limit - 1);
    }
  }

  lemma {:induction false} RootIsCanonical(s: Store, hs: seq<H256>, h: H256)
    requires Skeleton(s, hs) && hs != [] && Rooted(s.db.blockHeader)
    ensures IsRoot(s.db.blockHeader, h) ==> h in s.db.blockNumber
  {
    assert CanonAt(s.db, hs, 0);
    var genesis := hs[0];
    assert IsRoot(s.db.blockHeader, genesis);
  }

  /** Removing a header keeps parents stored exactly when no other stored block builds on it. */
  lemma {:induction false} RemovalKeepsParents(headers: map<H256, BlockHeader>, gone: H256)
    requires ParentsStored(headers) && gone != ZERO_HASH
    ensures ParentsStored(headers - {gone}) <==>
              forall h :: h in headers && h != gone ==> headers[h].previousHeaderHash != gone
  {
    var after := headers - {gone};
    assert forall h :: h in after ==> after[h] == headers[h];
    assert forall h :: h in after <==> h in headers && h != gone;
  }

  ghost predicate NothingBuildsOn(headers: map<H256, BlockHeader>, hash: H256) {
    forall h :: h in headers && h != hash ==> headers[h].previousHeaderHash != hash
  }

  lemma {:induction false} RollbackHeaders(s: Store, hs: seq<H256>)
    requires Skeleton(s, hs)
    ensures RollbackBest(s).Ok? ==>
              s.best.hash != ZERO_HASH && RollbackBest(s).value.0.db.blockHeader == s.db.blockHeader - {s.best.hash}
  {
    hide DecanonizeMetas;
    DecanonizeKeepsSkeleton(s, hs);
    assert hs != [] ==> CanonAt(s.db, hs, |hs| - 1);
  }

  /** Rolling back keeps parents stored exactly when no stored side block builds on the removed one. */
  lemma {:induction false} RollbackKeepsParents(s: Store, hs: seq<H256>)
    requires Skeleton(s, hs) && ParentsStored(s.db.blockHeader)
    ensures RollbackBest(s).Ok? ==>
              (ParentsStored(RollbackBest(s).value.0.db.blockHeader) <==> NothingBuildsOn(s.db.blockHeader, s.best.hash))
  {
    hide Skeleton, ParentsStored, RollbackBest;
    RollbackHeaders(s, hs);
    if RollbackBest(s).Ok? {
      RemovalKeepsParents(s.db.blockHeader, s.best.hash);
    }
  }

  // A rollback also deletes transactions, which side blocks may list too.

  lemma {:induction false} FilterShrinks(db: Columns, db': Columns, hashes: seq<H256>)
    requires db'.transaction.Keys <= db.transaction.Keys
    ensures |FilterTransactions(db', hashes)| <= |FilterTransactions(db, hashes)|
    decreases |hashes|
  {
    if hashes != [] {
      FilterShrinks(db, db', hashes[1..]);
    }
  }

  lemma {:induction false} FilterAgrees(db: Columns, db': Columns, gone: set<H256>, hashes: seq<H256>)
    requires db'.transaction == db.transaction - gone
    ensures FilterTransactions(db', hashes) == FilterTransactions(db, hashes) <==> Members(hashes) * db.transaction.Keys !! gone
    decreases |hashes|
  {
    if hashes != [] {
      var first, rest := hashes[0], hashes[1..];
      assert Members(hashes) == {first} + Members(rest);
      FilterAgrees(db, db', gone, rest);
      FilterShrinks(db, db', rest);
      FilterCons(db, hashes);
      FilterCons(db', hashes);
    }
  }

  lemma {:induction false} FilterCons(db: Columns, hashes: seq<H256>)
    requires hashes != []
    ensures var all, rest := FilterTransactions(db, hashes), FilterTransactions(db, hashes[1..]);
            if hashes[0] in db.transaction then |all| == |rest| + 1 && all[0].hash == hashes[0] && all[0].raw == db.transaction[hashes[0]] && all[1..] == rest
            else all == rest
  {
  }

  /** The present transactions that a block lists. */
  function Listed(db: Columns, hash: H256): set<H256> {
    Members(BlockTransactionHashes(db, hash)) * db.transaction.Keys
  }

  lemma {:induction false} RollbackReads(s: Store, hs: seq<H256>, h: H256)
    requires Skeleton(s, hs) && h in s.db.blockHeader && h != s.best.hash
    ensures RollbackBest(s).Ok? ==>
              (ReadBlock(RollbackBest(s).value.0.db, h) == ReadBlock(s.db, h) <==> Listed(s.db, h) !! Listed(s.db, s.best.hash))
  {
    hide DecanonizeMetas, CanonAt, FilterTransactions;
    DecanonizeKeepsSkeleton(s, hs);
    var listed := BlockTransactionHashes(s.db, s.best.hash);
    if RollbackBest(s).Ok? {
      FilterAgrees(s.db, RollbackBest(s).value.0.db, Members(listed), BlockTransactionHashes(s.db, h));
    }
  }

  /** Every other stored block still reads back exactly when none of them lists a transaction that the
      removed block lists. */
  lemma {:induction false} RollbackKeepsBlocks(s: Store, hs: seq<H256>)
    requires Skeleton(s, hs)
    ensures RollbackBest(s).Ok? ==>
              ((forall h :: h in s.db.blockHeader && h != s.best.hash ==> ReadBlock(RollbackBest(s).value.0.db, h) == ReadBlock(s.db, h)) <==>
               (forall h :: h in s.db.blockHeader && h != s.best.hash ==> Listed(s.db, h) !! Listed(s.db, s.best.hash)))
  {
    hide Skeleton, RollbackBest, ReadBlock, Listed;
    forall h | h in s.db.blockHeader && h != s.best.hash
      ensures RollbackBest(s).Ok? ==>
                (ReadBlock(RollbackBest(s).value.0.db, h) == ReadBlock(s.db, h) <==> Listed(s.db, h) !! Listed(s.db, s.best.hash))
    {
      RollbackReads(s, hs, h);
    }
  }

  /** What keeps a store rooted: no second genesis, and no rollback under a side block. */
  ghost predicate KeepsRoot(s: Store, step: Step) {
    match step
    case DoInsert(b) =>
      b.hash != ZERO_HASH && (b.header.previousHeaderHash == ZERO_HASH ==> forall h :: IsRoot(s.db.blockHeader, h) ==> h == b.hash)
    case DoRollbackBest => NothingBuildsOn(s.db.blockHeader, s.best.hash)
    case _ => true
  }

  ghost predicate RootedRun(s: Store, steps: seq<Step>)
    decreases |steps|
  {
    steps == [] || (KeepsRoot(s, steps[0]) && RootedRun(Next(s, steps[0]), steps[1..]))
  }

  lemma {:induction false} CanonizeRouteHeaders(s: Store, route: seq<H256>)
    ensures var r := CanonizeRoute(s, route); r.Ok? ==> r.value.db.blockHeader == s.db.blockHeader
    decreases |route|
  {
    hide Canonize;
    if route != [] {
      CanonizeKeepsBodies(s, route[0]);
      var r := Canonize(s, route[0]);
      if r.Ok? {
        CanonizeRouteHeaders(r.value, route[1..]);
      }
    }
  }

  lemma {:induction false} InsertKeepsRooted(s: Store, b: IndexedBlock)
    requires Rooted(s.db.blockHeader) && KeepsRoot(s, DoInsert(b))
    ensures Insert(s, b).Ok? ==> Rooted(Insert(s, b).value.db.blockHeader)
  {
    var r := Insert(s, b);
    if r.Ok? && b.hash !in s.db.blockHeader {
      var before, after := s.db.blockHeader, r.value.db.blockHeader;
      assert forall h :: IsRoot(after, h) && h != b.hash ==> IsRoot(before, h);
    }
  }

  lemma {:induction false} NextKeepsRooted(s: Store, step: Step)
    requires HasSkeleton(s) && Rooted(s.db.blockHeader) && KeepsRoot(s, step)
    ensures Rooted(Next(s, step).db.blockHeader)
  {
    var hs :| Skeleton(s, hs);
    match step {
      case DoInsert(b) =>
        InsertKeepsRooted(s, b);
      case DoCanonize(hash) =>
        CanonizeKeepsBodies(s, hash);
      case DoDecanonize =>
      case DoRollbackBest =>
        RollbackHeaders(s, hs);
        RollbackKeepsParents(s, hs);
        var before, after := s.db.blockHeader, Next(s, step).db.blockHeader;
        assert forall h :: IsRoot(after, h) ==> IsRoot(before, h);
      case DoSwitchToFork(origin) =>
        ReopenRestores(s, hs);
        RouteKeepsBodies(s, origin.decanonizedRoute);
        var undone := DecanonizeRoute(s, origin.decanonizedRoute);
        if undone.Ok? {
          CanonizeRouteHeaders(undone.value, origin.canonizedRoute);
        }
    }
  }

  /** Runs without a second genesis and without a rollback under a side block stay rooted, so that
      `block_origin` never panics once there is a canonical block. */
  lemma {:induction false} RootedRunsNeverPanic(s: Store, steps: seq<Step>, hash: H256, parent: H256)
    requires HasSkeleton(s) && Rooted(s.db.blockHeader) && RootedRun(s, steps)
    ensures var end := Final(s, steps);
            Rooted(end.db.blockHeader) && (OriginOf(end, hash, parent) == Err(AssertionFailed) <==> Skeleton(end, []))
    decreases |steps|
  {
    hide Rooted, KeepsRoot, Next, OriginOf, Skeleton;
    if steps == [] {
      var hs :| Skeleton(s, hs);
      if hs == [] {
        OriginPanics(s, hs, hash, parent);
      } else {
        RootedNeverPanics(s, hs, hash, parent);
        SkeletonBest(s, hs);
        NotBoth(s, hs);
      }
    } else {
      NextKeepsRooted(s, steps[0]);
      StepIsNonZero(s, steps[0]);
      NextKeepsSkeleton(s, steps[0]);
      RootedRunsNeverPanic(Next(s, steps[0]), steps[1..], hash, parent);
    }
  }

  lemma {:induction false} StepIsNonZero(s: Store, step: Step)
    requires KeepsRoot(s, step)
    ensures step.DoInsert? ==> step.block.hash != ZERO_HASH
  {
  }

  lemma {:induction false} NotBoth(s: Store, hs: seq<H256>)
    requires Skeleton(s, hs) && hs != []
    ensures !Skeleton(s, [])
  {
    assert CanonAt(s.db, hs, 0);
  }

  // ---------------------------------------------------------------------------------------------
  // The three ways to a panic.

  function EmptyBlock(hash: H256, parent: H256): IndexedBlock {
    IndexedBlock(hash, BlockHeader(parent, []), [])
  }

  /** Without a block the opening assertion fails, whatever the header. */
  lemma {:induction false} EmptyStorePanics(hash: H256, parent: H256)
    ensures OriginOf(EMPTY_STORE, hash, parent) == Err(AssertionFailed)
  {
  }

  /** Two canonical blocks. */
  const TWO_BLOCKS: Store := Store(BestBlock(1, 2), EMPTY.(
    bestNumber := Some(1), bestHash := Some(2), blockHash := map[0 := 1, 1 := 2], blockNumber := map[1 := 0, 2 := 1],
    blockHeader := map[1 := BlockHeader(0, []), 2 := BlockHeader(1, [])], blockTransactions := map[1 := [], 2 := []]))

  const FIRST_STEPS: seq<Step> := [DoInsert(EmptyBlock(1, 0)), DoCanonize(1), DoInsert(EmptyBlock(2, 1)), DoCanonize(2)]

  lemma {:induction false} FirstSteps()
    ensures Final(EMPTY_STORE, FIRST_STEPS) == TWO_BLOCKS
  {
    var one := EMPTY_STORE.(db := EMPTY.(blockHeader := map[1 := BlockHeader(0, [])], blockTransactions := map[1 := []]));
    assert Next(EMPTY_STORE, FIRST_STEPS[0]) == one;
    var best := Store(BestBlock(0, 1), one.db.(bestNumber := Some(0), bestHash := Some(1),
                                               blockHash := map[0 := 1], blockNumber := map[1 := 0]));
    assert Next(one, FIRST_STEPS[1]) == best;
    var two := best.(db := best.db.(blockHeader := TWO_BLOCKS.db.blockHeader, blockTransactions := TWO_BLOCKS.db.blockTransactions));
    assert Next(best, FIRST_STEPS[2]) == two;
    assert Next(two, FIRST_STEPS[3]) == TWO_BLOCKS;
    hide Next;
    FinalNext(EMPTY_STORE, FIRST_STEPS);
    FinalNext(one, FIRST_STEPS[1..]);
    FinalNext(best, FIRST_STEPS[2..]);
    FinalNext(two, FIRST_STEPS[3..]);
    assert FIRST_STEPS[1..][1..] == FIRST_STEPS[2..] && FIRST_STEPS[2..][1..] == FIRST_STEPS[3..] && FIRST_STEPS[3..][1..] == [];
  }

  lemma {:induction false} FinalNext(s: Store, steps: seq<Step>)
    requires steps != []
    ensures Final(s, steps) == Final(Next(s, steps[0]), steps[1..])
  {
    hide Next;
  }

  lemma {:induction false} FinalConcat(s: Store, a: seq<Step>, b: seq<Step>)
    ensures Final(s, a + b) == Final(Final(s, a), b)
    decreases |a|
  {
    hide Next;
    if a == [] {
      assert a + b == b;
    } else {
      assert (a + b)[1..] == a[1..] + b;
      FinalConcat(Next(s, a[0]), a[1..], b);
    }
  }

  /** One canonical block, and a side block whose parent is gone. */
  const ORPHANED: Store := Store(BestBlock(0, 1), EMPTY.(
    bestNumber := Some(0), bestHash := Some(1), blockHash := map[0 := 1], blockNumber := map[1 := 0],
    blockHeader := map[1 := BlockHeader(0, []), 3 := BlockHeader(2, [])], blockTransactions := map[1 := [], 3 := []]))

  const WITH_SIDE_BLOCK: Store := TWO_BLOCKS.(db := TWO_BLOCKS.db.(
    blockHeader := TWO_BLOCKS.db.blockHeader[3 := BlockHeader(2, [])], blockTransactions := TWO_BLOCKS.db.blockTransactions[3 := []]))

  lemma {:induction false} RollbackDrops()
    ensures Next(WITH_SIDE_BLOCK, DoRollbackBest) == ORPHANED
  {
    var s := WITH_SIDE_BLOCK;
    assert ReadBlock(s.db, 2) == Some(EmptyBlock(2, 1));
    var undone := Decanonize(s);
    assert undone.Ok? && undone.value.1 == 2 && undone.value.0.best == BestBlock(0, 1);
    assert undone.value.0.db.blockHash == map[0 := 1] && undone.value.0.db.blockNumber == map[1 := 0];
    hide Decanonize;
    assert s.db.blockHeader - {2} == ORPHANED.db.blockHeader;
    assert s.db.blockTransactions - {2} == ORPHANED.db.blockTransactions;
  }

  lemma {:induction false} RollbackOrphans()
    ensures Final(TWO_BLOCKS, [DoInsert(EmptyBlock(3, 2)), DoRollbackBest]) == ORPHANED
  {
    var steps := [DoInsert(EmptyBlock(3, 2)), DoRollbackBest];
    assert Next(TWO_BLOCKS, steps[0]) == WITH_SIDE_BLOCK;
    hide Next;
    RollbackDrops();
    FinalNext(TWO_BLOCKS, steps);
    FinalNext(WITH_SIDE_BLOCK, steps[1..]);
    FinalNothing(ORPHANED, steps[1..][1..]);
  }

  /** Rolling back under a side block leaves it without its parent; a header on it panics. */
  lemma {:induction false} RollbackLeavesOrphan()
    ensures var steps := FIRST_STEPS + [DoInsert(EmptyBlock(3, 2)), DoRollbackBest];
            OriginOf(Final(EMPTY_STORE, steps), 4, 3) == Err(AssertionFailed)
  {
    hide Final;
    FinalConcat(EMPTY_STORE, FIRST_STEPS, [DoInsert(EmptyBlock(3, 2)), DoRollbackBest]);
    FirstSteps();
    RollbackOrphans();
  }

  /** A side chain on a second genesis ends in no canonical block; a header on it panics. */
  lemma {:induction false} SecondGenesisPanics()
    ensures OriginOf(Final(EMPTY_STORE, FIRST_STEPS + [DoInsert(EmptyBlock(3, 0))]), 4, 3) == Err(AssertionFailed)
  {
    var steps := [DoInsert(EmptyBlock(3, 0))];
    FinalConcat(EMPTY_STORE, FIRST_STEPS, steps);
    FirstSteps();
    FinalNext(TWO_BLOCKS, steps);
    hide Final;
    var s := Next(TWO_BLOCKS, steps[0]);
    assert s.best == BestBlock(1, 2) && 3 in s.db.blockHeader && s.db.blockHeader[3].previousHeaderHash == 0;
    FinalNothing(s, steps[1..]);
  }

  lemma {:induction false} FinalNothing(s: Store, steps: seq<Step>)
    requires steps == []
    ensures Final(s, steps) == s
  {
  }
}
