/** How canonizing and decanonizing a block moves the transaction metas, and what the metas of a
    whole canonical chain are (db/src/block_chain_db.rs:286-324, 361-396). */
module SpentIndex {
  import opened Primitives
  import opened Chain
  import opened TransactionMetas
  import opened KeyValue

  /** The errors of the store, and the two ways a call can abort: an output index outside its
      transaction record, and a failed `assert!`. */
  datatype Error =
    | UnknownParent | AncientFork | CannotCanonize | CannotDecanonize
    | OutputOutOfRange | AssertionFailed

  // ---------------------------------------------------------------------------------------------
  // What the two operations do to the metas. `missing` is the error reported for an input whose
  // transaction has no meta; an output index outside the record aborts the call.

  function MarkInputs(m: Metas, inputs: seq<TransactionInput>, used: bool, missing: Error): Result<Metas, Error> {
    if inputs == [] then Ok(m) else
      var o := inputs[0].previousOutput;
      if o.hash !in m then Err(missing) else
      var marked := m[o.hash].Denote(o.index, used);
      if marked.None? then Err(OutputOutOfRange) else
      MarkInputs(m[o.hash := marked.value], inputs[1..], used, missing)
  }

  /** The transactions after the coinbase, in block order. */
  function CanonizeRest(m: Metas, height: nat, txs: seq<IndexedTransaction>): Result<Metas, Error>
    decreases |txs|
  {
    if txs == [] then Ok(m) else
      var m' :- MarkInputs(m[txs[0].hash := New(height, |txs[0].raw.outputs|)], txs[0].raw.inputs, true, CannotCanonize);
      CanonizeRest(m', height, txs[1..])
  }

  function CanonizeMetas(m: Metas, height: nat, txs: seq<IndexedTransaction>): Result<Metas, Error> {
    if txs == [] then Ok(m) else
      CanonizeRest(m[txs[0].hash := NewCoinbase(height, |txs[0].raw.outputs|)], height, txs[1..])
  }

  function ReleaseRest(m: Metas, txs: seq<IndexedTransaction>): Result<Metas, Error>
    decreases |txs|
  {
    if txs == [] then Ok(m) else
      var m' :- MarkInputs(m, txs[0].raw.inputs, false, CannotDecanonize);
      ReleaseRest(m', txs[1..])
  }

  function TxHashes(txs: seq<IndexedTransaction>): seq<H256> {
    seq(|txs|, i requires 0 <= i < |txs| => txs[i].hash)
  }

  function HashSet(txs: seq<IndexedTransaction>): set<H256> {
    set i | 0 <= i < |txs| :: txs[i].hash
  }

  function DecanonizeMetas(m: Metas, txs: seq<IndexedTransaction>): Result<Metas, Error> {
    var released :- ReleaseRest(m, if txs == [] then [] else txs[1..]);
    Ok(released - HashSet(txs))
  }

  // ---------------------------------------------------------------------------------------------
  // The reference: a log of the transactions on the chain and the set of outputs they spend.

  datatype Posting = Posting(height: nat, coinbase: bool, tx: IndexedTransaction)

  ghost function Postings(height: nat, txs: seq<IndexedTransaction>): seq<Posting> {
    seq(|txs|, j requires 0 <= j < |txs| => Posting(height, j == 0, txs[j]))
  }

  ghost function ChainLog(chain: seq<IndexedBlock>): seq<Posting> {
    if chain == [] then [] else
      var n := |chain| - 1;
      ChainLog(chain[..n]) + Postings(n, chain[n].transactions)
  }

  ghost function InputSpends(inputs: seq<TransactionInput>): set<OutPoint> {
    set k | 0 <= k < |inputs| :: inputs[k].previousOutput
  }

  /** Outputs spent by `txs[from..]`. */
  ghost function SpendsFrom(txs: seq<IndexedTransaction>, from: nat): set<OutPoint>
    decreases |txs| - from
  {
    if from >= |txs| then {} else InputSpends(txs[from].raw.inputs) + SpendsFrom(txs, from + 1)
  }

  /** Outputs spent by a block; its first transaction is the coinbase, whose inputs spend nothing. */
  ghost function BlockSpends(txs: seq<IndexedTransaction>): set<OutPoint> {
    SpendsFrom(txs, 1)
  }

  lemma {:induction false} SpendsMeaning(txs: seq<IndexedTransaction>, from: nat, o: OutPoint)
    ensures o in SpendsFrom(txs, from) <==> exists j :: from <= j < |txs| && txs[j].raw.Spends(o)
    decreases |txs| - from
  {
    if from < |txs| {
      SpendsMeaning(txs, from + 1, o);
      assert o in InputSpends(txs[from].raw.inputs) <==> txs[from].raw.Spends(o);
    }
  }

  ghost function ChainSpends(chain: seq<IndexedBlock>): set<OutPoint> {
    if chain == [] then {} else
      var n := |chain| - 1;
      ChainSpends(chain[..n]) + BlockSpends(chain[n].transactions)
  }

  ghost function LogHashes(log: seq<Posting>): set<H256> {
    set i | 0 <= i < |log| :: log[i].tx.hash
  }

  /** The output `o` exists among the logged transactions. */
  ghost predicate HasOutput(log: seq<Posting>, o: OutPoint) {
    exists i :: 0 <= i < |log| && log[i].tx.hash == o.hash && o.index < |log[i].tx.raw.outputs|
  }

  ghost predicate DistinctHashes(log: seq<Posting>) {
    forall i, j :: 0 <= i < j < |log| ==> log[i].tx.hash != log[j].tx.hash
  }

  ghost function MetaOf(p: Posting, spent: set<OutPoint>): TransactionMeta {
    TransactionMeta(p.height,
      [p.coinbase] + seq(|p.tx.raw.outputs|, k requires 0 <= k < |p.tx.raw.outputs| => Spent(p.tx.hash, k, spent)))
  }

  ghost predicate Spent(hash: H256, k: nat, spent: set<OutPoint>) {
    k < 0x1_0000_0000 && OutPoint(hash, k) in spent
  }

  /** `m` holds exactly the records of `log`, with exactly the outputs in `spent` marked. */
  ghost predicate Indexes(m: Metas, log: seq<Posting>, spent: set<OutPoint>) {
    && m.Keys == LogHashes(log)
    && forall i :: 0 <= i < |log| ==> log[i].tx.hash in m && m[log[i].tx.hash] == MetaOf(log[i], spent)
  }

  /** A log and a set of spends determine the metas. */
  lemma {:induction false} IndexUnique(m: Metas, m': Metas, log: seq<Posting>, spent: set<OutPoint>)
    requires Indexes(m, log, spent) && Indexes(m', log, spent)
    ensures m == m'
  {
  }

  /** What the chain state must satisfy for `block` to follow `chain`: transaction hashes are new,
      and every non-coinbase input spends an existing, unspent output made earlier. */
  ghost predicate ValidBlock(chain: seq<IndexedBlock>, txs: seq<IndexedTransaction>) {
    var log := ChainLog(chain);
    && (forall j :: 0 <= j < |txs| ==> txs[j].hash !in LogHashes(log))
    && (forall i, j :: 0 <= i < j < |txs| ==> txs[i].hash != txs[j].hash)
    && (forall j, k :: 1 <= j < |txs| && 0 <= k < |txs[j].raw.inputs| ==>
          var o := txs[j].raw.inputs[k].previousOutput;
          HasOutput(log + Postings(|chain|, txs)[..j], o) && o !in ChainSpends(chain))
  }

  ghost predicate ValidChain(chain: seq<IndexedBlock>) {
    chain == [] ||
    (var n := |chain| - 1; ValidChain(chain[..n]) && ValidBlock(chain[..n], chain[n].transactions))
  }

  ghost predicate SpendsExist(log: seq<Posting>, spent: set<OutPoint>) {
    forall o :: o in spent ==> HasOutput(log, o)
  }

  lemma {:induction false} HasOutputGrows(log: seq<Posting>, more: seq<Posting>, o: OutPoint)
    requires HasOutput(log, o)
    ensures HasOutput(log + more, o)
  {
    var i :| 0 <= i < |log| && log[i].tx.hash == o.hash && o.index < |log[i].tx.raw.outputs|;
    assert (log + more)[i] == log[i];
  }

  // ---------------------------------------------------------------------------------------------
  // Single steps.

  ghost function Toggle(spent: set<OutPoint>, os: set<OutPoint>, used: bool): set<OutPoint> {
    if used then spent + os else spent - os
  }

  lemma {:induction false} MetaOfMark(p: Posting, spent: set<OutPoint>, o: OutPoint, used: bool)
    ensures p.tx.hash == o.hash && o.index < |p.tx.raw.outputs| ==>
              MetaOf(p, spent).Denote(o.index, used) == Some(MetaOf(p, Toggle(spent, {o}, used)))
    ensures p.tx.hash != o.hash ==> MetaOf(p, spent) == MetaOf(p, Toggle(spent, {o}, used))
  {
    var spent' := Toggle(spent, {o}, used);
    if p.tx.hash != o.hash {
      assert MetaOf(p, spent).bits == MetaOf(p, spent').bits;
    } else if o.index < |p.tx.raw.outputs| {
      assert MetaOf(p, spent).bits[o.index + 1 := used] == MetaOf(p, spent').bits;
    }
  }

  lemma {:induction false} MarkOne(m: Metas, log: seq<Posting>, spent: set<OutPoint>, o: OutPoint, used: bool)
    requires Indexes(m, log, spent) && DistinctHashes(log) && HasOutput(log, o)
    ensures o.hash in m && m[o.hash].Denote(o.index, used).Some?
    ensures Indexes(m[o.hash := m[o.hash].Denote(o.index, used).value], log, Toggle(spent, {o}, used))
  {
    var spent' := Toggle(spent, {o}, used);
    var i :| 0 <= i < |log| && log[i].tx.hash == o.hash && o.index < |log[i].tx.raw.outputs|;
    MetaOfMark(log[i], spent, o, used);
    var m' := m[o.hash := m[o.hash].Denote(o.index, used).value];
    forall a | 0 <= a < |log|
      ensures log[a].tx.hash in m' && m'[log[a].tx.hash] == MetaOf(log[a], spent')
    {
      MetaOfMark(log[a], spent, o, used);
    }
    assert m'.Keys == m.Keys;
  }

  lemma {:induction false} MarkMany(m: Metas, log: seq<Posting>, spent: set<OutPoint>,
                                    inputs: seq<TransactionInput>, used: bool, missing: Error)
    requires Indexes(m, log, spent) && DistinctHashes(log)
    requires forall k :: 0 <= k < |inputs| ==> HasOutput(log, inputs[k].previousOutput)
    ensures var r := MarkInputs(m, inputs, used, missing);
            r.Ok? && Indexes(r.value, log, Toggle(spent, InputSpends(inputs), used))
    decreases |inputs|
  {
    hide Indexes;
    if inputs == [] {
      assert InputSpends(inputs) == {};
      assert Toggle(spent, {}, used) == spent;
    } else {
      var o := inputs[0].previousOutput;
      MarkOne(m, log, spent, o, used);
      var spent' := Toggle(spent, {o}, used);
      MarkMany(m[o.hash := m[o.hash].Denote(o.index, used).value], log, spent', inputs[1..], used, missing);
      InputSpendsCons(inputs);
      assert Toggle(spent, InputSpends(inputs), used) == Toggle(spent', InputSpends(inputs[1..]), used);
    }
  }

  lemma {:induction false} InputSpendsCons(inputs: seq<TransactionInput>)
    requires inputs != []
    ensures InputSpends(inputs) == {inputs[0].previousOutput} + InputSpends(inputs[1..])
  {
  }

  lemma {:induction false} SpentIsLogged(log: seq<Posting>, spent: set<OutPoint>, h: H256, k: nat)
    requires SpendsExist(log, spent)
    ensures Spent(h, k, spent) ==> h in LogHashes(log)
  {
  }

  /** Recording a transaction that nothing on the log spends from yet. */
  lemma {:induction false} AddPosting(m: Metas, log: seq<Posting>, spent: set<OutPoint>, p: Posting)
    requires Indexes(m, log, spent) && SpendsExist(log, spent)
    requires p.tx.hash !in LogHashes(log)
    ensures var meta := if p.coinbase then NewCoinbase(p.height, |p.tx.raw.outputs|) else New(p.height, |p.tx.raw.outputs|);
            Indexes(m[p.tx.hash := meta], log + [p], spent)
    ensures SpendsExist(log + [p], spent)
  {
    var meta := if p.coinbase then NewCoinbase(p.height, |p.tx.raw.outputs|) else New(p.height, |p.tx.raw.outputs|);
    var log', m' := log + [p], m[p.tx.hash := meta];
    forall k: nat
      ensures !Spent(p.tx.hash, k, spent)
    {
      SpentIsLogged(log, spent, p.tx.hash, k);
    }
    assert meta.bits == MetaOf(p, spent).bits;
    assert LogHashes(log') == LogHashes(log) + {p.tx.hash} by {
      assert forall i :: 0 <= i < |log| ==> log'[i] == log[i];
      assert log'[|log|] == p;
    }
    forall o | o in spent
      ensures HasOutput(log', o)
    {
      HasOutputGrows(log, [p], o);
    }
  }

  // ---------------------------------------------------------------------------------------------
  // Canonizing.

  lemma {:induction false} PostingsPrefix(chain: seq<IndexedBlock>, txs: seq<IndexedTransaction>, j: nat)
    requires ValidBlock(chain, txs) && DistinctHashes(ChainLog(chain)) && j < |txs|
    ensures var log := ChainLog(chain) + Postings(|chain|, txs)[..j];
            && log + [Posting(|chain|, j == 0, txs[j])] == ChainLog(chain) + Postings(|chain|, txs)[..j + 1]
            && txs[j].hash !in LogHashes(log)
            && DistinctHashes(log) && DistinctHashes(log + [Posting(|chain|, j == 0, txs[j])])
  {
  }

  /** Transaction `j` is recorded and its inputs are marked. */
  lemma {:induction false} CanonizeOne(chain: seq<IndexedBlock>, txs: seq<IndexedTransaction>, j: nat,
                                       m: Metas, spent: set<OutPoint>)
    requires ValidBlock(chain, txs) && DistinctHashes(ChainLog(chain)) && 1 <= j < |txs|
    requires Indexes(m, ChainLog(chain) + Postings(|chain|, txs)[..j], spent)
    requires SpendsExist(ChainLog(chain) + Postings(|chain|, txs)[..j], spent)
    ensures var r := MarkInputs(m[txs[j].hash := New(|chain|, |txs[j].raw.outputs|)], txs[j].raw.inputs, true, CannotCanonize);
            var log', spent' := ChainLog(chain) + Postings(|chain|, txs)[..j + 1], spent + InputSpends(txs[j].raw.inputs);
            r.Ok? && Indexes(r.value, log', spent') && SpendsExist(log', spent')
  {
    var log, p := ChainLog(chain) + Postings(|chain|, txs)[..j], Posting(|chain|, false, txs[j]);
    PostingsPrefix(chain, txs, j);
    AddPosting(m, log, spent, p);
    forall k | 0 <= k < |txs[j].raw.inputs|
      ensures HasOutput(log + [p], txs[j].raw.inputs[k].previousOutput)
    {
      HasOutputGrows(log, [p], txs[j].raw.inputs[k].previousOutput);
    }
    MarkMany(m[txs[j].hash := New(|chain|, |txs[j].raw.outputs|)], log + [p], spent, txs[j].raw.inputs, true, CannotCanonize);
  }

  /** From the state reached before transaction `j`, the remaining transactions complete the index. */
  lemma {:induction false} CanonizeFrom(chain: seq<IndexedBlock>, txs: seq<IndexedTransaction>, j: nat,
                                        m: Metas, spent: set<OutPoint>)
    requires ValidBlock(chain, txs) && DistinctHashes(ChainLog(chain)) && 1 <= j <= |txs|
    requires Indexes(m, ChainLog(chain) + Postings(|chain|, txs)[..j], spent)
    requires SpendsExist(ChainLog(chain) + Postings(|chain|, txs)[..j], spent)
    ensures var r := CanonizeRest(m, |chain|, txs[j..]);
            && r.Ok?
            && Indexes(r.value, ChainLog(chain) + Postings(|chain|, txs), spent + SpendsFrom(txs, j))
            && SpendsExist(ChainLog(chain) + Postings(|chain|, txs), spent + SpendsFrom(txs, j))
    decreases |txs| - j
  {
    hide ValidBlock, Indexes, SpendsExist, DistinctHashes;
    if j == |txs| {
      assert Postings(|chain|, txs)[..j] == Postings(|chain|, txs);
      assert spent + SpendsFrom(txs, j) == spent;
    } else {
      CanonizeOne(chain, txs, j, m, spent);
      var m' := MarkInputs(m[txs[j].hash := New(|chain|, |txs[j].raw.outputs|)], txs[j].raw.inputs, true, CannotCanonize).value;
      CanonizeFrom(chain, txs, j + 1, m', spent + InputSpends(txs[j].raw.inputs));
      assert txs[j..][1..] == txs[j + 1..];
      assert spent + SpendsFrom(txs, j) == spent + InputSpends(txs[j].raw.inputs) + SpendsFrom(txs, j + 1);
    }
  }

  /** The metas of a chain are its log with its spends, and all of these exist. */
  ghost predicate Replayed(m: Metas, chain: seq<IndexedBlock>) {
    && ValidChain(chain)
    && DistinctHashes(ChainLog(chain))
    && SpendsExist(ChainLog(chain), ChainSpends(chain))
    && Indexes(m, ChainLog(chain), ChainSpends(chain))
  }

  lemma {:induction false} LongerChain(chain: seq<IndexedBlock>, block: IndexedBlock)
    ensures ChainLog(chain + [block]) == ChainLog(chain) + Postings(|chain|, block.transactions)
    ensures ChainSpends(chain + [block]) == ChainSpends(chain) + BlockSpends(block.transactions)
    ensures ValidChain(chain + [block]) <==> ValidChain(chain) && ValidBlock(chain, block.transactions)
  {
  }

  /** A valid block keeps the logged hashes distinct. */
  lemma {:induction false} ExtendedDistinct(chain: seq<IndexedBlock>, txs: seq<IndexedTransaction>)
    requires ValidBlock(chain, txs) && DistinctHashes(ChainLog(chain))
    ensures DistinctHashes(ChainLog(chain) + Postings(|chain|, txs))
  {
  }

  /** Canonizing a valid block succeeds, and the metas are those of the longer chain. */
  lemma {:induction false} CanonizeReplays(m: Metas, chain: seq<IndexedBlock>, block: IndexedBlock)
    requires Replayed(m, chain) && ValidBlock(chain, block.transactions)
    ensures var r := CanonizeMetas(m, |chain|, block.transactions);
            r.Ok? && Replayed(r.value, chain + [block])
  {
    var txs := block.transactions;
    var base, ps, spent := ChainLog(chain), Postings(|chain|, txs), ChainSpends(chain);
    LongerChain(chain, block);
    ExtendedDistinct(chain, txs);
    if txs == [] {
      assert base + ps == base;
      assert spent + BlockSpends(txs) == spent;
    } else {
      FirstPosting(m, chain, txs);
      CanonizeFrom(chain, txs, 1, m[txs[0].hash := NewCoinbase(|chain|, |txs[0].raw.outputs|)], spent);
    }
  }

  lemma {:induction false} FirstPosting(m: Metas, chain: seq<IndexedBlock>, txs: seq<IndexedTransaction>)
    requires Replayed(m, chain) && ValidBlock(chain, txs) && txs != []
    ensures var log := ChainLog(chain) + Postings(|chain|, txs)[..1];
            && Indexes(m[txs[0].hash := NewCoinbase(|chain|, |txs[0].raw.outputs|)], log, ChainSpends(chain))
            && SpendsExist(log, ChainSpends(chain))
  {
    var base, ps := ChainLog(chain), Postings(|chain|, txs);
    assert ps[..1] == [Posting(|chain|, true, txs[0])];
    AddPosting(m, base, ChainSpends(chain), ps[0]);
  }

  // ---------------------------------------------------------------------------------------------
  // Decanonizing.

  lemma {:induction false} ReleaseFrom(m: Metas, log: seq<Posting>, spent: set<OutPoint>, txs: seq<IndexedTransaction>, j: nat)
    requires Indexes(m, log, spent) && DistinctHashes(log) && j <= |txs|
    requires forall i, k :: j <= i < |txs| && 0 <= k < |txs[i].raw.inputs| ==>
               HasOutput(log, txs[i].raw.inputs[k].previousOutput)
    ensures var r := ReleaseRest(m, txs[j..]);
            r.Ok? && Indexes(r.value, log, spent - SpendsFrom(txs, j))
    decreases |txs| - j
  {
    if j == |txs| {
      assert spent - SpendsFrom(txs, j) == spent;
    } else {
      MarkMany(m, log, spent, txs[j].raw.inputs, false, CannotDecanonize);
      var m' := MarkInputs(m, txs[j].raw.inputs, false, CannotDecanonize).value;
      ReleaseFrom(m', log, spent - InputSpends(txs[j].raw.inputs), txs, j + 1);
      assert txs[j..][1..] == txs[j + 1..];
      assert spent - SpendsFrom(txs, j) == spent - InputSpends(txs[j].raw.inputs) - SpendsFrom(txs, j + 1);
    }
  }

  lemma {:induction false} DropPostings(m: Metas, log: seq<Posting>, more: seq<Posting>, spent: set<OutPoint>, gone: set<H256>)
    requires Indexes(m, log + more, spent) && DistinctHashes(log + more) && gone == LogHashes(more)
    ensures Indexes(m - gone, log, spent)
  {
    var all := log + more;
    assert forall i :: 0 <= i < |log| ==> all[i] == log[i];
    forall i, j | 0 <= i < |log| && 0 <= j < |more|
      ensures log[i].tx.hash != more[j].tx.hash
    {
      assert all[i] == log[i] && all[|log| + j] == more[j];
    }
    assert LogHashes(all) == LogHashes(log) + gone by {
      forall h | h in gone
        ensures h in LogHashes(all)
      {
        var j :| 0 <= j < |more| && more[j].tx.hash == h;
        assert all[|log| + j] == more[j];
      }
      forall h | h in LogHashes(all)
        ensures h in LogHashes(log) + gone
      {
        var i :| 0 <= i < |all| && all[i].tx.hash == h;
        if i >= |log| {
          assert more[i - |log|] == all[i];
        }
      }
    }
    assert (m - gone).Keys == LogHashes(log);
  }

  lemma {:induction false} PostingHashes(height: nat, txs: seq<IndexedTransaction>)
    ensures LogHashes(Postings(height, txs)) == HashSet(txs)
  {
    var ps := Postings(height, txs);
    assert forall j :: 0 <= j < |txs| ==> ps[j].tx == txs[j];
    assert forall h :: h in LogHashes(ps) ==> h in HashSet(txs);
    forall j | 0 <= j < |txs|
      ensures txs[j].hash in LogHashes(ps)
    {
      assert ps[j].tx.hash == txs[j].hash;
    }
  }

  lemma {:induction false} LastBlockInput(chain: seq<IndexedBlock>, j: nat, k: nat)
    requires chain != [] && ValidChain(chain)
    requires 1 <= j < |chain[|chain| - 1].transactions| && k < |chain[|chain| - 1].transactions[j].raw.inputs|
    ensures HasOutput(ChainLog(chain), chain[|chain| - 1].transactions[j].raw.inputs[k].previousOutput)
  {
    var n := |chain| - 1;
    var txs := chain[n].transactions;
    SpendsMeaning(txs, 1, txs[j].raw.inputs[k].previousOutput);
    assert txs[j].raw.Spends(txs[j].raw.inputs[k].previousOutput);
    BlockSpendsExist(chain[..n], txs, txs[j].raw.inputs[k].previousOutput);
  }

  /** Marking the last block's inputs unused again leaves the spends of the shorter chain. */
  lemma {:induction false} ReleaseBlock(m: Metas, chain: seq<IndexedBlock>)
    requires chain != [] && Replayed(m, chain)
    ensures var n := |chain| - 1;
            var txs := chain[n].transactions;
            var r := ReleaseRest(m, if txs == [] then [] else txs[1..]);
            r.Ok? && Indexes(r.value, ChainLog(chain), ChainSpends(chain[..n]))
  {
    hide ValidChain, Indexes, DistinctHashes, ChainLog, HasOutput, SpendsExist;
    var n := |chain| - 1;
    var txs, all := chain[n].transactions, ChainSpends(chain);
    PrefixFacts(chain);
    assert all - SpendsFrom(txs, 1) == ChainSpends(chain[..n]);
    forall j, k | 1 <= j < |txs| && 0 <= k < |txs[j].raw.inputs|
      ensures HasOutput(ChainLog(chain), txs[j].raw.inputs[k].previousOutput)
    {
      LastBlockInput(chain, j, k);
    }
    if txs != [] {
      ReleaseFrom(m, ChainLog(chain), all, txs, 1);
    } else {
      assert all == ChainSpends(chain[..n]);
    }
  }

  /** Decanonizing the last block succeeds, and the metas are those of the shorter chain,
      also when the block's transactions spend each other's outputs. */
  lemma {:induction false} DecanonizeReplays(m: Metas, chain: seq<IndexedBlock>)
    requires chain != [] && Replayed(m, chain)
    ensures var n := |chain| - 1;
            var r := DecanonizeMetas(m, chain[n].transactions);
            r.Ok? && Replayed(r.value, chain[..n])
  {
    var n := |chain| - 1;
    var txs := chain[n].transactions;
    PrefixFacts(chain);
    ReleaseBlock(m, chain);
    PostingHashes(n, txs);
    var released := ReleaseRest(m, if txs == [] then [] else txs[1..]).value;
    DropPostings(released, ChainLog(chain[..n]), Postings(n, txs), ChainSpends(chain[..n]), HashSet(txs));
  }

  /** The spends of a valid block name outputs that the chain including it has. */
  lemma {:induction false} BlockSpendsExist(chain: seq<IndexedBlock>, txs: seq<IndexedTransaction>, o: OutPoint)
    requires ValidBlock(chain, txs) && o in BlockSpends(txs)
    ensures HasOutput(ChainLog(chain) + Postings(|chain|, txs), o) && o !in ChainSpends(chain)
  {
    var log, ps := ChainLog(chain), Postings(|chain|, txs);
    SpendsMeaning(txs, 1, o);
    var j :| 1 <= j < |txs| && txs[j].raw.Spends(o);
    HasOutputGrows(log + ps[..j], ps[j..], o);
    assert log + ps[..j] + ps[j..] == log + ps;
  }

  /** A valid chain spends only outputs it made. */
  lemma {:induction false} ChainSpendsExist(chain: seq<IndexedBlock>)
    requires ValidChain(chain)
    ensures SpendsExist(ChainLog(chain), ChainSpends(chain))
  {
    if chain != [] {
      var n := |chain| - 1;
      ChainSpendsExist(chain[..n]);
      forall o | o in ChainSpends(chain)
        ensures HasOutput(ChainLog(chain), o)
      {
        if o in ChainSpends(chain[..n]) {
          HasOutputGrows(ChainLog(chain[..n]), Postings(n, chain[n].transactions), o);
        } else {
          BlockSpendsExist(chain[..n], chain[n].transactions, o);
        }
      }
    }
  }

  /** The shorter chain keeps distinct hashes and spends only what it made. */
  lemma {:induction false} PrefixFacts(chain: seq<IndexedBlock>)
    requires chain != [] && ValidChain(chain) && DistinctHashes(ChainLog(chain))
    ensures var n := |chain| - 1;
            && DistinctHashes(ChainLog(chain[..n]))
            && SpendsExist(ChainLog(chain[..n]), ChainSpends(chain[..n]))
            && ChainSpends(chain[..n]) !! BlockSpends(chain[n].transactions)
  {
    var n := |chain| - 1;
    var log := ChainLog(chain[..n]);
    assert forall i :: 0 <= i < |log| ==> ChainLog(chain)[i] == log[i];
    ChainSpendsExist(chain[..n]);
    forall o | o in BlockSpends(chain[n].transactions)
      ensures o !in ChainSpends(chain[..n])
    {
      BlockSpendsExist(chain[..n], chain[n].transactions, o);
    }
  }

  // ---------------------------------------------------------------------------------------------
  // Reading the index.

  /** `is_spent`: unknown transactions and outputs count as unspent. */
  function IsSpent(m: Metas, o: OutPoint): bool {
    o.hash in m && m[o.hash].IsSpent(o.index) == Some(true)
  }

  /** Some non-coinbase transaction of the chain spends `o`. */
  ghost predicate SpentOnChain(chain: seq<IndexedBlock>, o: OutPoint) {
    exists i, j :: 0 <= i < |chain| && 1 <= j < |chain[i].transactions| && chain[i].transactions[j].raw.Spends(o)
  }

  lemma {:induction false} ChainSpendsMeaning(chain: seq<IndexedBlock>, o: OutPoint)
    ensures o in ChainSpends(chain) <==> SpentOnChain(chain, o)
  {
    if chain != [] {
      var n := |chain| - 1;
      ChainSpendsMeaning(chain[..n], o);
      SpendsMeaning(chain[n].transactions, 1, o);
      if SpentOnChain(chain, o) {
        var i, j :| 0 <= i < |chain| && 1 <= j < |chain[i].transactions| && chain[i].transactions[j].raw.Spends(o);
        if i < n {
          assert chain[..n][i] == chain[i];
        }
      }
    }
  }

  lemma {:induction false} MetaSpent(p: Posting, spent: set<OutPoint>, k: nat)
    ensures MetaOf(p, spent).IsSpent(k) == if k < |p.tx.raw.outputs| then Some(Spent(p.tx.hash, k, spent)) else None
  {
  }

  /** An output reads as spent exactly when a non-coinbase transaction of the chain spends it. */
  lemma {:induction false} IsSpentMeaning(m: Metas, chain: seq<IndexedBlock>, o: OutPoint)
    requires Replayed(m, chain)
    ensures IsSpent(m, o) <==> SpentOnChain(chain, o)
  {
    var log, spent := ChainLog(chain), ChainSpends(chain);
    ChainSpendsMeaning(chain, o);
    assert o in spent ==> HasOutput(log, o);
    if o.hash in m {
      var i :| 0 <= i < |log| && log[i].tx.hash == o.hash;
      MetaSpent(log[i], spent, o.index);
      assert HasOutput(log, o) ==> o.index < |log[i].tx.raw.outputs|;
    }
  }
}
