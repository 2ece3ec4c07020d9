/**
 What a store leaves in the two input tables, said from the stored transactions: one row for every input, which is keyed
 by the input's own transaction and position, and points to the output that the input spends.
 */
module InputRows {
  import opened Bags
  import opened Hook
  import opened StoreMany
  import opened FlushBarrier
  import opened BarrierProgram
  import IndexShards

  /** The input at a position of a transaction of a block. */
  datatype Input = Input(block: nat, tx: nat, position: nat)

  ghost predicate IsInput(blocks: seq<Block>, i: Input) {
    && i.block < |blocks| && i.tx < |blocks[i.block].txs|
    && i.position < |blocks[i.block].txs[i.tx].refs|
  }

  ghost predicate IsTx(blocks: seq<Block>, b: nat, t: nat, hash: int, key: int) {
    b < |blocks| && t < |blocks[b].txs| && blocks[b].txs[t].hash == hash && blocks[b].txs[t].id == key
  }

  /** Transaction `key` has the hash: it was in the index before, or it is in one of the blocks up to `b`. */
  ghost predicate HasHash(whole: IndexShards.Table, blocks: seq<Block>, b: nat, hash: int, key: int) {
    (hash, key) in whole.byIndex || exists c: nat, t: nat :: c <= b && IsTx(blocks, c, t, hash, key)
  }

  /** It points to the output of the first transaction with the spent hash, among those stored before and those of
      the blocks up to the input's own; without one it is the coinbase marker or the marker of an unknown output. */
  ghost predicate PointsToSpent(pointer: TxPointer, whole: IndexShards.Table, blocks: seq<Block>, b: nat,
                                ref: InputRef)
  {
    if exists key :: HasHash(whole, blocks, b, ref.txHash, key) then
      && HasHash(whole, blocks, b, ref.txHash, pointer.parent) && pointer.index == ref.index
      && forall key :: HasHash(whole, blocks, b, ref.txHash, key) ==> pointer.parent <= key
    else pointer.parent == 0 && pointer.index == if ref.index == 0xFFFF then 0xFFFF else 0
  }

  ghost predicate IsIdRow(row: (TxPointer, Payload), blocks: seq<Block>, i: Input)
    requires IsInput(blocks, i)
  {
    Names(row.0, blocks[i.block].txs[i.tx].id, i.position) && row.1 == Nothing
  }

  ghost predicate IsPointerRow(row: (TxPointer, Payload), whole: IndexShards.Table, blocks: seq<Block>, i: Input)
    requires IsInput(blocks, i)
  {
    && Names(row.0, blocks[i.block].txs[i.tx].id, i.position)
    && row.1.Utxo?
    && PointsToSpent(row.1.pointer, whole, blocks, i.block, blocks[i.block].txs[i.tx].refs[i.position])
  }

  // ---- every input once -----------------------------------------------------------------------------------------

  /** The first `n` inputs of a transaction, those of the first `m` transactions, and those of the first `m` blocks. */
  ghost function OfTx(b: nat, t: nat, n: nat): seq<Input> {
    if n == 0 then [] else OfTx(b, t, n - 1) + [Input(b, t, n - 1)]
  }

  ghost function OfTxs(b: nat, txs: seq<Tx>): seq<Input> {
    if txs == [] then [] else OfTxs(b, txs[..|txs| - 1]) + OfTx(b, |txs| - 1, |txs[|txs| - 1].refs|)
  }

  ghost function OfBlocks(blocks: seq<Block>, m: nat): seq<Input>
    requires m <= |blocks|
  {
    if m == 0 then [] else OfBlocks(blocks, m - 1) + OfTxs(m - 1, blocks[m - 1].txs)
  }

  lemma {:induction false} OfTxOnce(b: nat, t: nat, n: nat, i: Input)
    ensures multiset(OfTx(b, t, n))[i] == if i.block == b && i.tx == t && i.position < n then 1 else 0
  {
    if n > 0 { OfTxOnce(b, t, n - 1, i); }
  }

  lemma {:induction false} OfTxsOnce(b: nat, txs: seq<Tx>, i: Input)
    ensures multiset(OfTxs(b, txs))[i]
         == if i.block == b && i.tx < |txs| && i.position < |txs[i.tx].refs| then 1 else 0
  {
    if txs != [] {
      var last := |txs| - 1;
      OfTxsOnce(b, txs[..last], i);
      OfTxOnce(b, last, |txs[last].refs|, i);
    }
  }

  lemma {:induction false} OfBlocksOnce(blocks: seq<Block>, m: nat, i: Input)
    requires m <= |blocks|
    ensures multiset(OfBlocks(blocks, m))[i] == if i.block < m && IsInput(blocks, i) then 1 else 0
  {
    if m > 0 {
      OfBlocksOnce(blocks, m - 1, i);
      OneBlockMore(blocks, m - 1, i, OfBlocks(blocks, m - 1), OfBlocks(blocks, m));
    }
  }

  lemma {:induction false} OneBlockMore(blocks: seq<Block>, b: nat, i: Input, before: seq<Input>, all: seq<Input>)
    requires b < |blocks| && all == before + OfTxs(b, blocks[b].txs)
    ensures multiset(all)[i] == multiset(before)[i] + (if i.block == b && IsInput(blocks, i) then 1 else 0)
  {
    var own := LastOnce(blocks, b, i);
    Joined(before, own, all, i);
  }

  lemma LastOnce(blocks: seq<Block>, b: nat, i: Input) returns (own: seq<Input>)
    requires b < |blocks|
    ensures own == OfTxs(b, blocks[b].txs)
    ensures multiset(own)[i] == if i.block == b && IsInput(blocks, i) then 1 else 0
  {
    own := OfTxs(b, blocks[b].txs);
    OfTxsOnce(b, blocks[b].txs, i);
  }

  lemma Joined(a: seq<Input>, b: seq<Input>, all: seq<Input>, i: Input)
    requires all == a + b
    ensures multiset(all)[i] == multiset(a)[i] + multiset(b)[i]
  {
  }

  // ---- the collected references are the inputs ----------------------------------------------------------------

  /** The entry is the reference of input `i` of block `b`, with the input's transaction and position. */
  ghost predicate IsEntry(e: Entry, b: nat, txs: seq<Tx>, i: Input) {
    && i.block == b && i.tx < |txs| && i.position < |txs[i.tx].refs|
    && e.ref == txs[i.tx].refs[i.position] && e.owner == txs[i.tx].id && e.position == i.position
  }

  lemma {:induction false} OfTxAt(b: nat, t: nat, n: nat)
    ensures |OfTx(b, t, n)| == n && forall j :: 0 <= j < n ==> OfTx(b, t, n)[j] == Input(b, t, j)
  {
    if n > 0 { OfTxAt(b, t, n - 1); }
  }

  lemma {:induction false} EntriesAre(b: nat, txs: seq<Tx>)
    ensures |Entries(txs)| == |OfTxs(b, txs)|
    ensures forall j :: 0 <= j < |Entries(txs)| ==> IsEntry(Entries(txs)[j], b, txs, OfTxs(b, txs)[j])
  {
    if txs != [] {
      var last := |txs| - 1;
      EntriesAre(b, txs[..last]);
      OfTxAt(b, last, |txs[last].refs|);
      var before, own := Entries(txs[..last]), EntriesOf(txs[last]);
      forall j | 0 <= j < |Entries(txs)| ensures IsEntry(Entries(txs)[j], b, txs, OfTxs(b, txs)[j]) {
        if j < |before| {
          assert IsEntry(before[j], b, txs[..last], OfTxs(b, txs[..last])[j]);
        } else {
          assert Entries(txs)[j] == own[j - |before|];
        }
      }
    }
  }

  // ---- the index when a block is stored -------------------------------------------------------------------------

  lemma {:induction false} InsertAllAppend(whole: IndexShards.Table, a: seq<Op>, b: seq<Op>)
    ensures InsertAll(whole, a + b) == InsertAll(InsertAll(whole, a), b)
    ensures Resolutions(whole, a + b) == Resolutions(whole, a) + Resolutions(InsertAll(whole, a), b)
    decreases |a|
  {
    if a == [] {
      assert a + b == b;
    } else {
      var next := if a[0].InsertHash? then IndexShards.InsertRow(whole, a[0].key, a[0].hash) else whole;
      assert (a + b)[0] == a[0] && (a + b)[1..] == a[1..] + b;
      InsertAllAppend(next, a[1..], b);
    }
  }

  lemma {:induction false} InsertAllHolds(whole: IndexShards.Table, ops: seq<Op>, hash: int, key: int)
    ensures (hash, key) in InsertAll(whole, ops).byIndex
       <==> (hash, key) in whole.byIndex || InsertHash(key, hash) in ops
    decreases |ops|
  {
    if ops != [] {
      var next := if ops[0].InsertHash? then IndexShards.InsertRow(whole, ops[0].key, ops[0].hash) else whole;
      InsertAllHolds(next, ops[1..], hash, key);
    }
  }

  lemma {:induction false} BlockHashes(blocks: seq<Block>, m: nat, hash: int, key: int)
    requires m <= |blocks|
    ensures InsertHash(key, hash) in BlockOps(blocks, true, m)
       <==> exists b: nat, t: nat :: b < m && IsTx(blocks, b, t, hash, key)
  {
    if m > 0 {
      var inserts := HashInserts(blocks[m - 1].txs);
      BlockHashes(blocks, m - 1, hash, key);
      LastHashes(blocks, m - 1, hash, key);
      assert InsertHash(key, hash) in BlockOps(blocks, true, m)
        <==> InsertHash(key, hash) in BlockOps(blocks, true, m - 1) || InsertHash(key, hash) in inserts;
    }
  }

  lemma LastHashes(blocks: seq<Block>, b: nat, hash: int, key: int)
    requires b < |blocks|
    ensures InsertHash(key, hash) in HashInserts(blocks[b].txs) <==> exists t: nat :: IsTx(blocks, b, t, hash, key)
  {
    var inserts := HashInserts(blocks[b].txs);
    if InsertHash(key, hash) in inserts {
      var t: nat :| t < |inserts| && inserts[t] == InsertHash(key, hash);
      assert IsTx(blocks, b, t, hash, key);
    }
    forall t: nat | IsTx(blocks, b, t, hash, key) ensures InsertHash(key, hash) in inserts {
      assert inserts[t] == InsertHash(key, hash);
    }
  }

  lemma {:induction false} HashInsertsResolveNothing(whole: IndexShards.Table, ops: seq<Op>)
    requires forall i :: 0 <= i < |ops| ==> ops[i].InsertHash?
    ensures Resolutions(whole, ops) == []
    decreases |ops|
  {
    if ops != [] {
      HashInsertsResolveNothing(IndexShards.InsertRow(whole, ops[0].key, ops[0].hash), ops[1..]);
    }
  }

  /** The index that the references of block `b` are looked up in: it has the hashes of the blocks up to that one. */
  ghost function IndexAt(whole: IndexShards.Table, blocks: seq<Block>, b: nat): IndexShards.Table
    requires b < |blocks|
  {
    InsertAll(whole, BlockOps(blocks, true, b + 1))
  }

  lemma IndexHasHashes(whole: IndexShards.Table, blocks: seq<Block>, b: nat, hash: int, key: int)
    requires b < |blocks|
    ensures (hash, key) in IndexAt(whole, blocks, b).byIndex <==> HasHash(whole, blocks, b, hash, key)
  {
    InsertAllHolds(whole, BlockOps(blocks, true, b + 1), hash, key);
    BlockHashes(blocks, b + 1, hash, key);
  }

  // ---- the resolved references --------------------------------------------------------------------------------

  /** The resolved reference of an input. */
  ghost predicate Resolves(r: Resolved, whole: IndexShards.Table, blocks: seq<Block>, i: Input) {
    && IsInput(blocks, i) && IsEntry(r.entry, i.block, blocks[i.block].txs, i)
    && r.found == IndexShards.Lookup(IndexAt(whole, blocks, i.block), r.entry.ref.txHash)
  }

  ghost predicate ResolveInputs(out: seq<Resolved>, inputs: seq<Input>, whole: IndexShards.Table, blocks: seq<Block>) {
    |out| == |inputs| && forall j :: 0 <= j < |inputs| ==> Resolves(out[j], whole, blocks, inputs[j])
  }

  lemma ResolveBoth(a: seq<Resolved>, ins: seq<Input>, b: seq<Resolved>, more: seq<Input>, whole: IndexShards.Table,
                    blocks: seq<Block>)
    requires ResolveInputs(a, ins, whole, blocks) && ResolveInputs(b, more, whole, blocks)
    ensures ResolveInputs(a + b, ins + more, whole, blocks)
  {
  }

  /** The references of a block are looked up after all its hashes have been inserted. */
  lemma {:induction false} BlockLookups(before: IndexShards.Table, txs: seq<Tx>, isLast: bool)
    ensures var at := InsertAll(before, HashInserts(txs));
            && InsertAll(before, TxOps(txs, isLast)) == at
            && Resolutions(before, TxOps(txs, isLast)) == ResolveAll(at, Entries(txs))
  {
    var inserts, query := HashInserts(txs), [QueryRefs(Entries(txs), isLast)];
    var at := InsertAll(before, inserts);
    InsertAllAppend(before, inserts, query);
    HashInsertsResolveNothing(before, inserts);
    assert query[1..] == [];
    assert InsertAll(at, query) == at;
    assert Resolutions(at, query) == ResolveAll(at, Entries(txs)) + [];
  }

  lemma IndexAtIs(whole: IndexShards.Table, blocks: seq<Block>, b: nat) returns (before: IndexShards.Table)
    requires b < |blocks|
    ensures before == InsertAll(whole, BlockOps(blocks, true, b))
    ensures IndexAt(whole, blocks, b) == InsertAll(before, TxOps(blocks[b].txs, b + 1 == |blocks|))
  {
    before := InsertAll(whole, BlockOps(blocks, true, b));
    InsertAllAppend(whole, BlockOps(blocks, true, b), TxOps(blocks[b].txs, b + 1 == |blocks|));
  }

  lemma {:induction false} BlockResolves(whole: IndexShards.Table, blocks: seq<Block>, b: nat)
    requires b < |blocks|
    ensures ResolveInputs(Resolutions(InsertAll(whole, BlockOps(blocks, true, b)),
                                      TxOps(blocks[b].txs, b + 1 == |blocks|)),
                          OfTxs(b, blocks[b].txs), whole, blocks)
  {
    var txs := blocks[b].txs;
    var before := IndexAtIs(whole, blocks, b);
    BlockLookups(before, txs, b + 1 == |blocks|);
    LookedUp(IndexAt(whole, blocks, b), whole, blocks, b);
  }

  lemma {:induction false} LookedUp(at: IndexShards.Table, whole: IndexShards.Table, blocks: seq<Block>, b: nat)
    requires b < |blocks| && at == IndexAt(whole, blocks, b)
    ensures ResolveInputs(ResolveAll(at, Entries(blocks[b].txs)), OfTxs(b, blocks[b].txs), whole, blocks)
  {
    var txs := blocks[b].txs;
    var out, inputs := ResolveAll(at, Entries(txs)), OfTxs(b, txs);
    EntriesAre(b, txs);
    forall j | 0 <= j < |inputs| ensures Resolves(out[j], whole, blocks, inputs[j]) {
      assert IsEntry(Entries(txs)[j], b, txs, inputs[j]);
    }
  }

  lemma {:induction false} BlocksResolve(whole: IndexShards.Table, blocks: seq<Block>, m: nat)
    requires m <= |blocks|
    ensures ResolveInputs(Resolutions(whole, BlockOps(blocks, true, m)), OfBlocks(blocks, m), whole, blocks)
  {
    if m > 0 {
      var ops, own := BlockOps(blocks, true, m - 1), TxOps(blocks[m - 1].txs, m == |blocks|);
      BlocksResolve(whole, blocks, m - 1);
      BlockResolves(whole, blocks, m - 1);
      InsertAllAppend(whole, ops, own);
      ResolveBoth(Resolutions(whole, ops), OfBlocks(blocks, m - 1), Resolutions(InsertAll(whole, ops), own),
                  OfTxs(m - 1, blocks[m - 1].txs), whole, blocks);
    }
  }

  // ---- the rows -----------------------------------------------------------------------------------------------

  lemma ResolvedPointsToSpent(r: Resolved, whole: IndexShards.Table, blocks: seq<Block>, i: Input, pointer: TxPointer)
    requires Resolves(r, whole, blocks, i) && Locates(pointer, r.entry.ref, r.found)
    ensures PointsToSpent(pointer, whole, blocks, i.block, r.entry.ref)
  {
    var t, b, hash := IndexAt(whole, blocks, i.block), i.block, r.entry.ref.txHash;
    forall key
      ensures (hash, key) in t.byIndex <==> HasHash(whole, blocks, b, hash, key)
      ensures key in IndexShards.KeysOf(t, hash) <==> (hash, key) in t.byIndex
    {
      IndexHasHashes(whole, blocks, b, hash, key);
    }
  }

  lemma PointerRowOf(r: Resolved, whole: IndexShards.Table, blocks: seq<Block>, i: Input)
    requires Resolves(r, whole, blocks, i)
    ensures IsPointerRow((IdOf(r.entry), Utxo(UtxoOf(r.entry, r.found))), whole, blocks, i)
    ensures IsIdRow((IdOf(r.entry), Nothing), blocks, i)
  {
    ResolvedPointsToSpent(r, whole, blocks, i, UtxoOf(r.entry, r.found));
  }

  /** The tables of a sequential run have one row for every input. */
  lemma TablesHoldInputs(whole: IndexShards.Table, blocks: seq<Block>)
    returns (out: seq<Resolved>, inputs: seq<Input>)
    ensures out == Resolutions(whole, BlockOps(blocks, true, |blocks|)) && EachOnce(inputs, blocks)
    ensures IdRowsOf(IdTable(out), blocks, inputs) && PointerRowsOf(PointerTable(out), whole, blocks, inputs)
  {
    out, inputs := Resolutions(whole, BlockOps(blocks, true, |blocks|)), OfBlocks(blocks, |blocks|);
    BlocksResolve(whole, blocks, |blocks|);
    forall i ensures multiset(inputs)[i] == if IsInput(blocks, i) then 1 else 0 {
      OfBlocksOnce(blocks, |blocks|, i);
    }
    forall j | 0 <= j < |inputs|
      ensures IsInput(blocks, inputs[j]) && IsIdRow(IdTable(out)[j], blocks, inputs[j])
      ensures IsPointerRow(PointerTable(out)[j], whole, blocks, inputs[j])
    {
      PointerRowOf(out[j], whole, blocks, inputs[j]);
    }
  }

  /** Every input of the blocks is in the list, once. */
  ghost predicate EachOnce(inputs: seq<Input>, blocks: seq<Block>) {
    forall i :: multiset(inputs)[i] == if IsInput(blocks, i) then 1 else 0
  }

  ghost predicate IdRowsOf(rows: Rows, blocks: seq<Block>, inputs: seq<Input>) {
    && |rows| == |inputs|
    && forall j :: 0 <= j < |inputs| ==> IsInput(blocks, inputs[j]) && IsIdRow(rows[j], blocks, inputs[j])
  }

  ghost predicate PointerRowsOf(rows: Rows, whole: IndexShards.Table, blocks: seq<Block>, inputs: seq<Input>) {
    && |rows| == |inputs|
    && forall j :: 0 <= j < |inputs| ==> IsInput(blocks, inputs[j]) && IsPointerRow(rows[j], whole, blocks, inputs[j])
  }

  // ---- what a store writes --------------------------------------------------------------------------------------

  /** What `n` destinations from `first` on have written. */
  ghost function Written(y: Sys, first: nat, n: nat): (bags: seq<multiset<(TxPointer, Payload)>>)
    requires first + n <= |y.dests|
    ensures |bags| == n && forall j :: 0 <= j < n ==> bags[j] == WrittenAt(y, first + j)
  {
    seq(n, j requires 0 <= j < n => WrittenAt(y, first + j))
  }

  ghost function WrittenAt(y: Sys, chan: nat): multiset<(TxPointer, Payload)>
    requires chan < |y.dests|
  {
    var f := y.dests[chan].fsm;
    if f.flushed.Some? then multiset(f.flushed.value) else multiset{}
  }

  lemma WrittenIsExpected(s: Sinks, whole: IndexShards.Table, blocks: seq<Block>, vp: int -> nat, n: nat, before: bool,
                          moves: seq<Move>, chan: nat)
    returns (z: Sys, out: seq<Resolved>)
    requires n > 0 && IndexShards.Within(vp, n) && chan < s.Channels() && blocks != []
    requires Possible(s, Initial(s, whole, BlockOps(blocks, true, |blocks|), vp, n, before), moves)
    ensures z == Final(s, Initial(s, whole, BlockOps(blocks, true, |blocks|), vp, n, before), moves)
    ensures out == Resolutions(whole, BlockOps(blocks, true, |blocks|)) && chan < |z.dests|
    ensures Quiet(z) ==> WrittenAt(z, chan) == multiset(RowsFor(s, out, chan))
  {
    var ops := BlockOps(blocks, true, |blocks|);
    z := Final(s, Initial(s, whole, ops, vp, n, before), moves);
    out := Resolutions(whole, ops);
    StoreCompletes(s, whole, blocks, vp, n, before, moves, chan);
  }

  lemma {:induction false} WrittenIs(z: Sys, s: Sinks, out: seq<Resolved>, first: nat, m: nat)
    requires first + m <= |z.dests|
    requires forall chan :: first <= chan < first + m ==> WrittenAt(z, chan) == multiset(RowsFor(s, out, chan))
    ensures Written(z, first, m) == BagsOf(DestinationRows(s, out, first, m))
  {
  }

  lemma {:induction false} TablesWritten(z: Sys, s: Sinks, out: seq<Resolved>)
    requires s.Valid() && |z.dests| == s.Channels()
    requires forall chan :: 0 <= chan < s.Channels() ==> WrittenAt(z, chan) == multiset(RowsFor(s, out, chan))
    ensures BagSum(Written(z, 0, s.idShards)) == multiset(IdTable(out))
    ensures BagSum(Written(z, s.idShards, s.pointerShards)) == multiset(PointerTable(out))
  {
    WrittenIs(z, s, out, 0, s.idShards);
    WrittenIs(z, s, out, s.idShards, s.pointerShards);
    IdsPartition(s, out);
    PointersPartition(s, out);
  }

  /** Whatever the threads do: when a store of blocks is done, the destinations of the two tables together have written
      one row for every input of the blocks, and each pointer row names the output that its input spends. */
  lemma {:induction false} EveryInputWritten(s: Sinks, whole: IndexShards.Table, blocks: seq<Block>, vp: int -> nat,
                                             n: nat, before: bool, moves: seq<Move>)
    returns (z: Sys, inputs: seq<Input>, ids: Rows, pointers: Rows)
    requires s.Valid() && n > 0 && IndexShards.Within(vp, n) && blocks != []
    requires Possible(s, Initial(s, whole, BlockOps(blocks, true, |blocks|), vp, n, before), moves)
    requires Quiet(Final(s, Initial(s, whole, BlockOps(blocks, true, |blocks|), vp, n, before), moves))
    ensures z == Final(s, Initial(s, whole, BlockOps(blocks, true, |blocks|), vp, n, before), moves)
    ensures EachOnce(inputs, blocks) && s.Channels() == |z.dests|
    ensures IdRowsOf(ids, blocks, inputs) && BagSum(Written(z, 0, s.idShards)) == multiset(ids)
    ensures PointerRowsOf(pointers, whole, blocks, inputs)
    ensures BagSum(Written(z, s.idShards, s.pointerShards)) == multiset(pointers)
  {
    var ops := BlockOps(blocks, true, |blocks|);
    z := Final(s, Initial(s, whole, ops, vp, n, before), moves);
    var out;
    out, inputs := TablesHoldInputs(whole, blocks);
    ids, pointers := IdTable(out), PointerTable(out);
    forall chan | 0 <= chan < s.Channels() ensures WrittenAt(z, chan) == multiset(RowsFor(s, out, chan)) {
      var y, r := WrittenIsExpected(s, whole, blocks, vp, n, before, moves, chan);
    }
    TablesWritten(z, s, out);
  }

  lemma {:induction false} InOneBag<T>(bags: seq<multiset<T>>, x: T) returns (j: nat)
    requires x in BagSum(bags)
    ensures j < |bags| && x in bags[j]
  {
    if x in bags[0] {
      j := 0;
    } else {
      j := InOneBag(bags[1..], x);
      j := j + 1;
    }
  }

  /** The spent hash has one transaction when the input's block is stored. */
  ghost predicate SpendsOnly(whole: IndexShards.Table, blocks: seq<Block>, i: Input, key: int)
    requires IsInput(blocks, i)
  {
    var hash, b := blocks[i.block].txs[i.tx].refs[i.position].txHash, i.block;
    forall other :: HasHash(whole, blocks, b, hash, other) <==> other == key
  }

  lemma RowOfInput(pointers: Rows, whole: IndexShards.Table, blocks: seq<Block>, inputs: seq<Input>, i: Input, key: int)
    returns (row: (TxPointer, Payload))
    requires EachOnce(inputs, blocks) && PointerRowsOf(pointers, whole, blocks, inputs)
    requires IsInput(blocks, i) && i.position < 0x1_0000 && SpendsOnly(whole, blocks, i, key)
    ensures var tx := blocks[i.block].txs[i.tx];
            row == (TxPointer(tx.id, i.position), Utxo(TxPointer(key, tx.refs[i.position].index)))
    ensures row in multiset(pointers)
  {
    assert multiset(inputs)[i] == 1;
    assert i in inputs;
    var j: nat :| j < |inputs| && inputs[j] == i;
    assert IsPointerRow(pointers[j], whole, blocks, i);
    var ref := blocks[i.block].txs[i.tx].refs[i.position];
    assert HasHash(whole, blocks, i.block, ref.txHash, key);
    row := pointers[j];
  }

  lemma InWritten(z: Sys, chan: nat, row: (TxPointer, Payload))
    requires chan < |z.dests| && row in WrittenAt(z, chan)
    ensures z.dests[chan].fsm.flushed.Some? && row in z.dests[chan].fsm.flushed.value
  {
  }

  lemma WrittenSomewhere(z: Sys, first: nat, n: nat, rows: multiset<(TxPointer, Payload)>, row: (TxPointer, Payload))
    returns (chan: nat)
    requires first + n <= |z.dests| && BagSum(Written(z, first, n)) == rows && row in rows
    ensures first <= chan < |z.dests| && z.dests[chan].fsm.flushed.Some? && row in z.dests[chan].fsm.flushed.value
  {
    var own := InOneBag(Written(z, first, n), row);
    chan := first + own;
    InWritten(z, chan, row);
  }

  /** If the spent hash has one transaction, then a destination of the pointer table has written the row of the input,
      and that row names this transaction and the spent output. */
  lemma SpendFindsOutput(s: Sinks, whole: IndexShards.Table, blocks: seq<Block>, vp: int -> nat, n: nat, before: bool,
                         moves: seq<Move>, i: Input, key: int)
    returns (z: Sys, chan: nat)
    requires s.Valid() && n > 0 && IndexShards.Within(vp, n) && IsInput(blocks, i) && i.position < 0x1_0000
    requires Possible(s, Initial(s, whole, BlockOps(blocks, true, |blocks|), vp, n, before), moves)
    requires Quiet(Final(s, Initial(s, whole, BlockOps(blocks, true, |blocks|), vp, n, before), moves))
    requires SpendsOnly(whole, blocks, i, key)
    ensures z == Final(s, Initial(s, whole, BlockOps(blocks, true, |blocks|), vp, n, before), moves)
    ensures s.idShards <= chan < |z.dests| && z.dests[chan].fsm.flushed.Some?
    ensures var tx := blocks[i.block].txs[i.tx];
            (TxPointer(tx.id, i.position), Utxo(TxPointer(key, tx.refs[i.position].index)))
            in z.dests[chan].fsm.flushed.value
  {
    var inputs, ids, pointers;
    z, inputs, ids, pointers := EveryInputWritten(s, whole, blocks, vp, n, before, moves);
    var row := RowOfInput(pointers, whole, blocks, inputs, i, key);
    chan := WrittenSomewhere(z, s.idShards, s.pointerShards, multiset(pointers), row);
  }
}
