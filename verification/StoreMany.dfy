/**
 The generated `store_many` of blocks and of their transactions: the order in which hashes are
 inserted, input references are collected and the hook is called, and how `is_last` is narrowed.
 */
module StoreMany {
  import opened Hook

  datatype Tx = Tx(id: int, hash: int, refs: seq<InputRef>)

  datatype Block = Block(txs: seq<Tx>)

  /** What storing does to the transaction hash index. */
  datatype Op = InsertHash(key: int, hash: int) | QueryRefs(refs: seq<Entry>, isLast: bool)

  // ---- what is stored -------------------------------------------------------------------------------------

  function EntriesOf(tx: Tx): (e: seq<Entry>)
    ensures |e| == |tx.refs|
  {
    seq(|tx.refs|, i requires 0 <= i < |tx.refs| => Entry(tx.refs[i], tx.id, i))
  }

  /** The references of all transactions, in order. */
  function Entries(txs: seq<Tx>): seq<Entry> {
    if txs == [] then [] else Entries(txs[..|txs| - 1]) + EntriesOf(txs[|txs| - 1])
  }

  /** No output is spent twice. */
  ghost predicate DistinctRefs(entries: seq<Entry>) {
    forall i, j :: 0 <= i < j < |entries| ==> entries[i].ref != entries[j].ref
  }

  function HashInserts(txs: seq<Tx>): (ops: seq<Op>)
    ensures |ops| == |txs| && forall i :: 0 <= i < |ops| ==> ops[i] == InsertHash(txs[i].id, txs[i].hash)
  {
    seq(|txs|, i requires 0 <= i < |txs| => InsertHash(txs[i].id, txs[i].hash))
  }

  function TxOps(txs: seq<Tx>, isLast: bool): seq<Op> {
    HashInserts(txs) + [QueryRefs(Entries(txs), isLast)]
  }

  /** The operations of the first `m` of the blocks, of which only the last of all may be the last. */
  function BlockOps(blocks: seq<Block>, isLast: bool, m: nat): seq<Op>
    requires m <= |blocks|
  {
    if m == 0 then [] else BlockOps(blocks, isLast, m - 1) + TxOps(blocks[m - 1].txs, isLast && m == |blocks|)
  }

  ghost predicate NoSignal(ops: seq<Op>) {
    forall i :: 0 <= i < |ops| && ops[i].QueryRefs? ==> !ops[i].isLast
  }

  lemma NoSignalJoined(a: seq<Op>, b: seq<Op>)
    requires NoSignal(a) && NoSignal(b)
    ensures NoSignal(a + b)
  {
  }

  // ---- the generated code ---------------------------------------------------------------------------------

  /** Adds one transaction's references to the collected ones, unless one is already there. */
  method CollectRefs(tx: Tx, collected: seq<Entry>) returns (all: seq<Entry>, ok: bool)
    requires DistinctRefs(collected)
    ensures ok <==> DistinctRefs(collected + EntriesOf(tx))
    ensures ok ==> all == collected + EntriesOf(tx)
  {
    all := collected;
    for idx := 0 to |tx.refs|
      invariant all == collected + EntriesOf(tx)[..idx] && DistinctRefs(all)
    {
      if exists j :: 0 <= j < |all| && all[j].ref == tx.refs[idx] {
        ghost var j :| 0 <= j < |all| && all[j].ref == tx.refs[idx];
        ghost var whole := collected + EntriesOf(tx);
        assert whole[j] == all[j] && whole[|all|] == EntriesOf(tx)[idx];
        return all, false;
      }
      all := all + [Entry(tx.refs[idx], tx.id, idx)];
    }
    assert EntriesOf(tx)[..|tx.refs|] == EntriesOf(tx);
    ok := true;
  }

  /** Transaction `i` is the first with an output that is spent twice; what was done by then is to insert the hashes up
      to its own. */
  ghost predicate StoppedAt(txs: seq<Tx>, i: nat, ops: seq<Op>) {
    && i < |txs| && DistinctRefs(Entries(txs[..i])) && !DistinctRefs(Entries(txs[..i + 1]))
    && |ops| == i + 1 && forall j :: 0 <= j <= i ==> ops[j] == InsertHash(txs[j].id, txs[j].hash)
  }

  /** Block `i` is the first with such a transaction; the blocks before it have been stored. */
  ghost predicate StoppedIn(blocks: seq<Block>, isLast: bool, i: nat, own: seq<Op>, ops: seq<Op>) {
    && i < |blocks| && (forall j :: 0 <= j < i ==> DistinctRefs(Entries(blocks[j].txs)))
    && ops == BlockOps(blocks, isLast, i) + own && exists t :: StoppedAt(blocks[i].txs, t, own)
  }

  /** Storing the transactions of one block; fails on a double spend and then calls no hook. */
  method StoreTransactions(txs: seq<Tx>, isLast: bool) returns (ops: seq<Op>, ok: bool)
    ensures ok <==> DistinctRefs(Entries(txs))
    ensures ok ==> ops == TxOps(txs, isLast)
    ensures !ok ==> NoSignal(ops) && exists i :: StoppedAt(txs, i, ops)
  {
    ops := [];
    var collected: seq<Entry> := [];
    for i := 0 to |txs|
      invariant collected == Entries(txs[..i]) && DistinctRefs(collected)
      invariant ops == HashInserts(txs[..i])
    {
      assert txs[..i + 1][..i] == txs[..i];
      ops := ops + [InsertHash(txs[i].id, txs[i].hash)];
      collected, ok := CollectRefs(txs[i], collected);
      if !ok {
        DoubleSpend(txs, i, ops);
        return;
      }
    }
    assert txs[..|txs|] == txs;
    ops := ops + [QueryRefs(collected, isLast)];
    ok := true;
  }

  lemma {:induction false} DoubleSpend(txs: seq<Tx>, i: nat, ops: seq<Op>)
    requires i < |txs| && ops == HashInserts(txs[..i]) + [InsertHash(txs[i].id, txs[i].hash)]
    requires DistinctRefs(Entries(txs[..i])) && !DistinctRefs(Entries(txs[..i]) + EntriesOf(txs[i]))
    ensures StoppedAt(txs, i, ops) && !DistinctRefs(Entries(txs)) && NoSignal(ops)
  {
    assert txs[..i + 1][..i] == txs[..i];
    EntriesPrefix(txs, i + 1);
  }

  lemma {:induction false} EntriesPrefix(txs: seq<Tx>, m: nat)
    requires m <= |txs|
    ensures Entries(txs[..m]) <= Entries(txs)
    decreases |txs|
  {
    if m == |txs| {
      assert txs[..m] == txs;
    } else {
      EntriesPrefix(txs[..|txs| - 1], m);
      assert txs[..|txs| - 1][..m] == txs[..m];
    }
  }

  /** Storing blocks: only the last transaction list of the last block may carry the signal. */
  method StoreBlocks(blocks: seq<Block>, isLast: bool) returns (ops: seq<Op>, ok: bool)
    ensures ok <==> forall i :: 0 <= i < |blocks| ==> DistinctRefs(Entries(blocks[i].txs))
    ensures ok ==> ops == BlockOps(blocks, isLast, |blocks|)
    ensures !ok ==> NoSignal(ops) && exists i, own :: StoppedIn(blocks, isLast, i, own, ops)
  {
    ops := [];
    var remaining := |blocks|;
    for i := 0 to |blocks|
      invariant remaining == |blocks| - i
      invariant ops == BlockOps(blocks, isLast, i)
      invariant forall j :: 0 <= j < i ==> DistinctRefs(Entries(blocks[j].txs))
    {
      BlockSignals(blocks, isLast, i);
      remaining := remaining - 1;
      var narrowed := isLast && remaining == 0;
      var txOps, txOk := StoreTransactions(blocks[i].txs, narrowed);
      if !txOk { NoSignalJoined(ops, txOps); }
      ops := ops + txOps;
      if !txOk {
        assert StoppedIn(blocks, isLast, i, txOps, ops);
        return ops, false;
      }
    }
    ok := true;
  }

  // ---- the signal -------------------------------------------------------------------------------------------

  /** The signal is in the operations of the first `m` blocks exactly when they are all blocks and the call is the
      last one; it is then the last operation and the only signal, even if the last block has no inputs. */
  lemma {:induction false} BlockSignals(blocks: seq<Block>, isLast: bool, m: nat)
    requires m <= |blocks|
    ensures var ops := BlockOps(blocks, isLast, m);
            if isLast && m == |blocks| && m > 0
            then ops != [] && ops[|ops| - 1].QueryRefs? && ops[|ops| - 1].isLast && NoSignal(ops[..|ops| - 1])
            else NoSignal(ops)
  {
    if m > 0 {
      BlockSignals(blocks, isLast, m - 1);
      var before, txOps := BlockOps(blocks, isLast, m - 1), TxOps(blocks[m - 1].txs, isLast && m == |blocks|);
      assert txOps[..|txOps| - 1] == HashInserts(blocks[m - 1].txs);
      var ops := before + txOps;
      assert ops[..|ops| - 1] == before + HashInserts(blocks[m - 1].txs);
    }
  }
}
