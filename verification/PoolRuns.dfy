/** Package totals over whole runs of arrivals and removals (miner/src/memory_pool.rs:302-342, 534-561). */
module PoolRuns {
  import opened Primitives
  import opened PoolGraph

  datatype PoolStep = Arrive(entry: Entry) | Take(hash: H256)

  ghost function After(pool: Pool, step: PoolStep): Pool {
    match step
    case Arrive(e) => Arrived(pool, e)
    case Take(h) => pool - {h}
  }

  ghost function Final(pool: Pool, steps: seq<PoolStep>): Pool
    decreases |steps|
  {
    if steps == [] then pool else Final(After(pool, steps[0]), steps[1..])
  }

  /** Arrivals are new, come after what they spend and before what spends them; only entries without
      in-pool parents are taken, as every strategy does. */
  ghost predicate ParentsFirst(pool: Pool, seen: set<H256>, steps: seq<PoolStep>)
    decreases |steps|
  {
    steps == [] ||
    (match steps[0]
     case Arrive(e) => FreshEntry(pool, e) && e.hash !in seen && ParentsFirst(Arrived(pool, e), seen + {e.hash}, steps[1..])
     case Take(h) => h in Available(pool, pool.Keys) && ParentsFirst(pool - {h}, seen, steps[1..]))
  }

  ghost predicate RecordsSeen(pool: Pool, seen: set<H256>) {
    pool.Keys <= seen && forall h :: h in pool ==> pool[h].ancestors <= seen
  }

  /** After every parents-first run the recorded ancestors and package totals are exact. */
  lemma {:induction false} RunsKeepPackages(pool: Pool, seen: set<H256>, steps: seq<PoolStep>)
    requires WellOrdered(pool) && AncestorsExact(pool) && PackagesExact(pool) && RecordsSeen(pool, seen)
    requires ParentsFirst(pool, seen, steps)
    ensures var final := Final(pool, steps); WellOrdered(final) && AncestorsExact(final) && PackagesExact(final)
    decreases |steps|
  {
    hide AncestorsExact, PackagesExact, WellOrdered;
    if steps != [] {
      match steps[0] {
        case Arrive(e) =>
          ArrivalKeepsAncestors(pool, e);
          ArrivalKeepsPackages(pool, e);
          ArrivalRecordsSeen(pool, seen, e);
          RunsKeepPackages(Arrived(pool, e), seen + {e.hash}, steps[1..]);
        case Take(h) =>
          RootRemovalKeepsAncestors(pool, h);
          RootRemovalKeepsPackages(pool, h);
          RunsKeepPackages(pool - {h}, seen, steps[1..]);
      }
    }
  }

  lemma {:induction false} ArrivalRecordsSeen(pool: Pool, seen: set<H256>, e: Entry)
    requires RecordsSeen(pool, seen) && FreshEntry(pool, e)
    ensures RecordsSeen(Arrived(pool, e), seen + {e.hash})
    ensures e.hash !in seen ==> Unrecorded(pool, e.hash)
  {
    assert RecordedAncestors(pool, e.transaction) <= seen;
  }
}
