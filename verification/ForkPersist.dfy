/**
 Persisting batches on a write context: old batches as they come, newer blocks linked one by one, forks by replacement.

 A context whose store hook defers flushes cannot commit the deletes with which a replacement begins, once it has
 stored a block: that commit waits for ever.
 */
module ForkPersist {
  import opened Wrappers
  import opened ForkLink
  import opened WriteContext

  /** How a call ends, if it does. */
  datatype Ending = Complete | Error(error: string) | Panic | Hang

  /** What is stored, whether storing defers flushes, and whether it has done so. */
  datatype Context<T> = Context(store: Store<T>, hooked: bool, deferred: bool)

  // ---- placing a fork -----------------------------------------------------------------------------------------

  function Stored<T>(c: Context<T>, store: Store<T>, some: bool): Context<T> {
    Context(store, c.hooked, Deferred(c.deferred, c.hooked, some))
  }

  /** Do the commits of a fork end? That of a lone block stores it; that of a replacement deletes first. */
  predicate Goes<T>(c: Context<T>, fork: seq<Block<T>>) {
    |fork| > 1 ==> Commits(c.deferred, false)
  }

  /** What a fork leaves: a replacement that does not end has deleted what is stored at its heights. */
  function Put<T>(c: Context<T>, fork: seq<Block<T>>): Context<T> {
    if fork == [] then c
    else if Goes(c, fork) then Stored(c, Place(c.store, fork), true)
    else c.(store := DeleteAll(c.store, fork))
  }

  /** Links and stores block after block; what was stored before a failure stays. */
  function LinkEach<T(!new)>(c: Context<T>, blocks: seq<Block<T>>, provider: Provider<T>, ghost rank: int -> nat)
    : (Context<T>, Ending)
    requires Ends(provider, rank)
    decreases |blocks|
  {
    if blocks == [] then (c, Complete)
    else
      match ChainLink(blocks[0], provider, c.store, rank)
      case Done(fork) =>
        if Goes(c, fork) then LinkEach(Put(c, fork), blocks[1..], provider, rank) else (Put(c, fork), Hang)
      case Failed(e) => (c, Error(e))
      case Panicked => (c, Panic)
  }

  function Persist<T(!new)>(c: Context<T>, blocks: seq<Block<T>>, forkHeight: nat, provider: Provider<T>,
                            ghost rank: int -> nat)
    : (Context<T>, Ending)
    requires Ends(provider, rank)
  {
    if blocks == [] then (c, Complete)
    else if blocks[|blocks| - 1].height <= forkHeight then (Stored(c, StoreAll(c.store, blocks), true), Complete)
    else LinkEach(c, blocks, provider, rank)
  }

  class BlockChain<T(!new)> {
    var store: Store<T>
    var deferred: bool
    const hooked: bool

    function State(): Context<T>
      reads this
    {
      Context(store, hooked, deferred)
    }

    constructor (hooked: bool)
      ensures State() == Context(Store(map[], {}), hooked, false)
    {
      this.hooked := hooked;
      store, deferred := Store(map[], {}), false;
    }

    /** Stores the blocks in one transaction; `ended` says whether its commit ends. */
    method StoreBlocks(blocks: seq<Block<T>>) returns (ended: bool)
      modifies this
      ensures State() == Stored(old(State()), StoreAll(old(store), blocks), blocks != [])
      ensures ended == Commits(old(deferred), blocks != [])
    {
      for i := 0 to |blocks|
        invariant store == StoreAll(old(store), blocks[..i]) && deferred == old(deferred)
      {
        assert blocks[..i + 1][..i] == blocks[..i];
        store := StoreBlock(store, blocks[i]);
      }
      assert blocks[..|blocks|] == blocks;
      ended := Commits(deferred, blocks != []);
      deferred := Deferred(deferred, hooked, blocks != []);
    }

    /** Deletes whatever is stored at the blocks' heights, which is one transaction, then stores the blocks in a second
        one, if the commit of the first one ends. `between` is ghost: what the first one leaves. */
    method UpdateBlocks(blocks: seq<Block<T>>) returns (ended: bool, ghost between: Store<T>)
      modifies this
      ensures between == DeleteAll(old(store), blocks) && ended == Commits(old(deferred), false)
      ensures State() == if ended then Stored(old(State()), StoreAll(between, blocks), blocks != [])
                         else old(State()).(store := between)
    {
      for i := 0 to |blocks|
        invariant store == DeleteAll(old(store), blocks[..i]) && deferred == old(deferred)
      {
        assert blocks[..i + 1][..i] == blocks[..i];
        store := DeleteBlock(store, blocks[i].height);
      }
      assert blocks[..|blocks|] == blocks;
      between := store;
      ended := Commits(deferred, false);
      if ended {
        ended := StoreBlocks(blocks);
      }
    }
  }

  method PersistOrLink<T(!new)>(blocks: seq<Block<T>>, forkHeight: nat, provider: Provider<T>, chain: BlockChain<T>,
                                ghost rank: int -> nat)
    returns (r: Ending)
    requires Ends(provider, rank)
    modifies chain
    ensures (chain.State(), r) == Persist(old(chain.State()), blocks, forkHeight, provider, rank)
    ensures if blocks == [] then r == Complete && chain.State() == old(chain.State())
            else if blocks[|blocks| - 1].height <= forkHeight then
              && r == Complete && chain.store == StoreAll(old(chain.store), blocks)
              && chain.deferred == (old(chain.deferred) || chain.hooked)
            else EndsWith(old(chain.State()), blocks, provider, rank, chain.State(), r)
  {
    ghost var before := chain.State();
    if blocks == [] { return Complete; }
    var ended: bool;
    if blocks[|blocks| - 1].height <= forkHeight {
      ended := chain.StoreBlocks(blocks);
      return Complete;
    }
    LinkEachExactly(before, blocks, provider, rank, LinkEach(before, blocks, provider, rank).0,
                    LinkEach(before, blocks, provider, rank).1);
    for i := 0 to |blocks|
      invariant LinkEach(before, blocks, provider, rank) == LinkEach(chain.State(), blocks[i..], provider, rank)
    {
      assert blocks[i..][0] == blocks[i] && blocks[i..][1..] == blocks[i + 1..];
      match ChainLink(blocks[i], provider, chain.store, rank) {
        case Failed(e) => return Error(e);
        case Panicked => return Panic;
        case Done(fork) =>
          if |fork| == 1 {
            ended := chain.StoreBlocks(fork);
          } else if |fork| > 1 {
            ghost var between;
            ended, between := chain.UpdateBlocks(fork);
            if !ended { return Hang; }
          }
      }
    }
    r := Complete;
  }

  // ---- how a batch ends ---------------------------------------------------------------------------------------

  /** What a fork does to a context when its commits end: nothing, or one block is stored, or what stands at the fork's
      heights is replaced, which takes a context whose flushes are not deferred. */
  ghost predicate Taken<T>(c: Context<T>, fork: seq<Block<T>>, d: Context<T>) {
    if fork == [] then d == c
    else
      && d.hooked == c.hooked && d.deferred == (c.deferred || c.hooked)
      && if |fork| == 1 then d.store == StoreBlock(c.store, fork[0])
         else !c.deferred && d.store == StoreAll(DeleteAll(c.store, fork), fork)
  }

  /** The contexts that the first `k` blocks lead through, one after the other. */
  ghost predicate Run<T(!new)>(states: seq<Context<T>>, blocks: seq<Block<T>>, provider: Provider<T>, rank: int -> nat,
                               k: nat)
    requires Ends(provider, rank)
  {
    && k <= |blocks| && |states| == k + 1
    && forall i: nat :: i < k ==> StepAt(states, blocks, provider, rank, i)
  }

  ghost predicate StepAt<T(!new)>(states: seq<Context<T>>, blocks: seq<Block<T>>, provider: Provider<T>,
                                  rank: int -> nat, i: nat)
    requires Ends(provider, rank) && i < |blocks| && i + 1 < |states|
  {
    Next(states[i], blocks[i], provider, rank, states[i + 1])
  }

  ghost predicate Next<T(!new)>(c: Context<T>, block: Block<T>, provider: Provider<T>, rank: int -> nat, d: Context<T>)
    requires Ends(provider, rank)
  {
    var fork := ChainLink(block, provider, c.store, rank);
    fork.Done? && Taken(c, fork.value, d)
  }

  /** A block at which a batch stops: the walk failed or panicked, and nothing is done, or the commit of the deletes of
      a replacement does not end, and they are done. */
  ghost predicate StopsAt<T(!new)>(c: Context<T>, block: Block<T>, provider: Provider<T>, rank: int -> nat,
                                   z: Context<T>, r: Ending)
    requires Ends(provider, rank)
  {
    var fork := ChainLink(block, provider, c.store, rank);
    match r
    case Complete => false
    case Error(e) => fork == Failed(e) && z == c
    case Panic => fork == Panicked && z == c
    case Hang => fork.Done? && |fork.value| > 1 && c.deferred && z == c.(store := DeleteAll(c.store, fork.value))
  }

  /** Some number of blocks is persisted, and unless these are all the batch stops at the next one. */
  ghost predicate EndsWith<T(!new)>(c: Context<T>, blocks: seq<Block<T>>, provider: Provider<T>, rank: int -> nat,
                                   z: Context<T>, r: Ending)
    requires Ends(provider, rank)
  {
    exists states, k: nat ::
      && Run(states, blocks, provider, rank, k) && states[0] == c
      && if r.Complete? then k == |blocks| && z == states[k]
         else k < |blocks| && StopsAt(states[k], blocks[k], provider, rank, z, r)
  }

  lemma TakenIsPut<T>(c: Context<T>, fork: seq<Block<T>>, d: Context<T>)
    ensures Taken(c, fork, d) <==> Goes(c, fork) && d == Put(c, fork)
  {
    if |fork| == 1 { assert StoreAll(c.store, fork) == StoreBlock(c.store, fork[0]); }
  }

  lemma RunHead<T(!new)>(states: seq<Context<T>>, blocks: seq<Block<T>>, provider: Provider<T>, rank: int -> nat,
                         k: nat)
    requires Ends(provider, rank) && blocks != [] && |states| == k + 2
    ensures Run(states, blocks, provider, rank, k + 1)
       <==> Next(states[0], blocks[0], provider, rank, states[1]) && Run(states[1..], blocks[1..], provider, rank, k)
  {
    var rest, later := blocks[1..], states[1..];
    if Run(states, blocks, provider, rank, k + 1) {
      forall i: nat | i < k ensures StepAt(later, rest, provider, rank, i) {
        assert StepAt(states, blocks, provider, rank, i + 1);
      }
      assert StepAt(states, blocks, provider, rank, 0);
    }
    if Next(states[0], blocks[0], provider, rank, states[1]) && Run(later, rest, provider, rank, k) {
      forall i: nat | i < k + 1 ensures StepAt(states, blocks, provider, rank, i) {
        if i > 0 { assert StepAt(later, rest, provider, rank, i - 1); }
      }
    }
  }

  /** A batch has one outcome, step by step. */
  lemma {:induction false} LinkEachExactly<T(!new)>(c: Context<T>, blocks: seq<Block<T>>, provider: Provider<T>,
                                                    rank: int -> nat, z: Context<T>, r: Ending)
    requires Ends(provider, rank)
    ensures EndsWith(c, blocks, provider, rank, z, r) <==> LinkEach(c, blocks, provider, rank) == (z, r)
    decreases |blocks|
  {
    if blocks == [] {
      if LinkEach(c, blocks, provider, rank) == (z, r) { assert Run([c], blocks, provider, rank, 0) && [c][0] == c; }
    } else {
      var fork := ChainLink(blocks[0], provider, c.store, rank);
      if fork.Done? {
        TakenIsPut(c, fork.value, Put(c, fork.value));
        LinkEachExactly(Put(c, fork.value), blocks[1..], provider, rank, z, r);
      }
      if LinkEach(c, blocks, provider, rank) == (z, r) { OutcomeHolds(c, blocks, provider, rank, z, r); }
      if EndsWith(c, blocks, provider, rank, z, r) { OutcomeOnly(c, blocks, provider, rank, z, r); }
    }
  }

  lemma {:induction false} OutcomeHolds<T(!new)>(c: Context<T>, blocks: seq<Block<T>>, provider: Provider<T>,
                                                 rank: int -> nat, z: Context<T>, r: Ending)
    requires Ends(provider, rank) && blocks != [] && LinkEach(c, blocks, provider, rank) == (z, r)
    requires var fork := ChainLink(blocks[0], provider, c.store, rank);
             fork.Done? && Goes(c, fork.value) ==> EndsWith(Put(c, fork.value), blocks[1..], provider, rank, z, r)
    ensures EndsWith(c, blocks, provider, rank, z, r)
  {
    var fork := ChainLink(blocks[0], provider, c.store, rank);
    if fork.Done? && Goes(c, fork.value) {
      var d, rest := Put(c, fork.value), blocks[1..];
      TakenIsPut(c, fork.value, d);
      var later: seq<Context<T>>, k: nat :|
        && Run(later, rest, provider, rank, k) && later[0] == d
        && if r.Complete? then k == |rest| && z == later[k]
           else k < |rest| && StopsAt(later[k], rest[k], provider, rank, z, r);
      var states := [c] + later;
      assert states[1..] == later;
      RunHead(states, blocks, provider, rank, k);
      assert Run(states, blocks, provider, rank, k + 1) && states[0] == c && states[k + 1] == later[k];
    } else {
      var states := [c];
      assert Run(states, blocks, provider, rank, 0) && states[0] == c;
      assert StopsAt(states[0], blocks[0], provider, rank, z, r);
    }
  }

  lemma {:induction false} OutcomeOnly<T(!new)>(c: Context<T>, blocks: seq<Block<T>>, provider: Provider<T>,
                                                rank: int -> nat, z: Context<T>, r: Ending)
    requires Ends(provider, rank) && blocks != [] && EndsWith(c, blocks, provider, rank, z, r)
    requires var fork := ChainLink(blocks[0], provider, c.store, rank);
             fork.Done? && Goes(c, fork.value) && EndsWith(Put(c, fork.value), blocks[1..], provider, rank, z, r) ==>
               LinkEach(Put(c, fork.value), blocks[1..], provider, rank) == (z, r)
    ensures LinkEach(c, blocks, provider, rank) == (z, r)
  {
    var fork := ChainLink(blocks[0], provider, c.store, rank);
    var states: seq<Context<T>>, k: nat :|
      && Run(states, blocks, provider, rank, k) && states[0] == c
      && if r.Complete? then k == |blocks| && z == states[k]
         else k < |blocks| && StopsAt(states[k], blocks[k], provider, rank, z, r);
    if k > 0 {
      RunHead(states, blocks, provider, rank, k - 1);
      TakenIsPut(c, fork.value, states[1]);
      var later, rest := states[1..], blocks[1..];
      assert Run(later, rest, provider, rank, k - 1) && later[0] == Put(c, fork.value) && later[k - 1] == states[k];
    }
  }

  // ---- one block ------------------------------------------------------------------------------------------------

  ghost predicate SoundAt<T>(c: Context<T>, tip: nat, heightOf: int -> int) {
    ChainUpTo(c.store, tip) && HonestStore(c.store, heightOf)
  }

  /** The block's missing ancestors are served, and unless there are none a replacement can be committed. */
  ghost predicate Linkable<T(!new)>(c: Context<T>, block: Block<T>, provider: Provider<T>, rank: int -> nat)
    requires Ends(provider, rank)
  {
    Fetchable(block, provider, c.store, rank) && (Anchored(c.store, block) || Commits(c.deferred, false))
  }

  /** One block at the next height. The tip moves up by one and the chain holds exactly if the block's missing
      ancestors are served, and the parent is stored or flushes are not deferred yet; where a fork reaches back, the
      chain below it stays. If the node fails, nothing is stored. */
  lemma {:induction false} LinkOne<T(!new)>(c: Context<T>, tip: nat, block: Block<T>, provider: Provider<T>,
                                            heightOf: int -> int, rank: int -> nat)
    requires SoundAt(c, tip, heightOf) && HonestNode(provider, heightOf)
    requires block.height == tip + 1 && Honest(block, heightOf) && Ends(provider, rank)
    ensures var r := ChainLink(block, provider, c.store, rank);
            && !r.Panicked? && (r.Failed? ==> !Fetchable(block, provider, c.store, rank))
            && (r.Done? ==> (ChainUpTo(Put(c, r.value).store, tip + 1) <==> Linkable(c, block, provider, rank)))
            && (Linkable(c, block, provider, rank) ==>
                  r.Done? && Goes(c, r.value) && LinkedIn(c.store, tip, block, r.value, heightOf))
  {
    var r := ChainLink(block, provider, c.store, rank);
    PlacedExactly(c.store, tip, block, provider, heightOf, rank);
    if r.Done? {
      LinkHonest(c.store, block, provider, heightOf, rank);
      if Fetchable(block, provider, c.store, rank) { AloneExactly(c.store, block, provider, rank); }
      if r.value != [] && !Goes(c, r.value) { DeletedTop(c.store, tip, r.value); }
    }
  }

  lemma {:induction false} DeletedTop<T>(s: Store<T>, tip: nat, fork: seq<Block<T>>)
    requires ChainUpTo(s, tip)
    ensures !ChainUpTo(DeleteAll(s, fork), tip + 1)
  {
    DeleteAllKeeps(s, fork);
    assert tip + 1 !in s.headers;
  }

  /** When flushes are deferred, a served fork of several blocks hangs: what it was to replace is deleted, and the chain
      below it stays. */
  lemma {:induction false} ReplacementHangs<T(!new)>(c: Context<T>, tip: nat, blocks: seq<Block<T>>,
                                                     provider: Provider<T>, heightOf: int -> int, rank: int -> nat)
    requires SoundAt(c, tip, heightOf) && HonestNode(provider, heightOf) && Ends(provider, rank) && blocks != []
    requires blocks[0].height == tip + 1 && Honest(blocks[0], heightOf) && c.deferred
    requires Fetchable(blocks[0], provider, c.store, rank) && !Anchored(c.store, blocks[0])
    ensures var fork := ChainLink(blocks[0], provider, c.store, rank);
            && fork.Done? && |fork.value| > 1 && 1 <= fork.value[0].height <= tip
            && LinkEach(c, blocks, provider, rank) == (c.(store := DeleteAll(c.store, fork.value)), Hang)
            && ChainUpTo(DeleteAll(c.store, fork.value), fork.value[0].height - 1)
  {
    var fork := ChainLink(blocks[0], provider, c.store, rank);
    PlacedExactly(c.store, tip, blocks[0], provider, heightOf, rank);
    LinkHonest(c.store, blocks[0], provider, heightOf, rank);
    AloneExactly(c.store, blocks[0], provider, rank);
    LinkedHeights(fork.value);
    StoppedBetween(c.store, tip, fork.value);
  }

  // ---- batches --------------------------------------------------------------------------------------------------

  /** The next heights, with honest hashes. */
  ghost predicate NextHeights<T>(tip: nat, blocks: seq<Block<T>>, heightOf: int -> int) {
    forall i :: 0 <= i < |blocks| ==> blocks[i].height == tip + 1 + i && Honest(blocks[i], heightOf)
  }

  /** Each block can be linked when its turn comes. */
  ghost predicate Served<T(!new)>(c: Context<T>, blocks: seq<Block<T>>, provider: Provider<T>, rank: int -> nat)
    requires Ends(provider, rank)
    decreases |blocks|
  {
    blocks == []
    || (&& Linkable(c, blocks[0], provider, rank)
        && var fork := ChainLink(blocks[0], provider, c.store, rank);
           fork.Done? && Served(Put(c, fork.value), blocks[1..], provider, rank))
  }

  /** The first `k` blocks of a batch are persisted and leave a chain. */
  ghost predicate KeepsAt<T(!new)>(c: Context<T>, tip: nat, blocks: seq<Block<T>>, provider: Provider<T>,
                                   rank: int -> nat, k: nat)
    requires Ends(provider, rank) && k <= |blocks|
  {
    var (z, r) := LinkEach(c, blocks[..k], provider, rank);
    r == Complete && ChainUpTo(z.store, tip + k)
  }

  lemma NextRest<T>(tip: nat, blocks: seq<Block<T>>, heightOf: int -> int)
    requires NextHeights(tip, blocks, heightOf) && blocks != []
    ensures NextHeights(tip + 1, blocks[1..], heightOf) && blocks[0].height == tip + 1 && Honest(blocks[0], heightOf)
    ensures |blocks| > 1 ==> blocks[1..][|blocks[1..]| - 1] == blocks[|blocks| - 1]
  {
  }

  /** After every block of a batch there is a chain up to that block. */
  ghost predicate KeepsEvery<T(!new)>(c: Context<T>, tip: nat, blocks: seq<Block<T>>, provider: Provider<T>,
                                      rank: int -> nat)
    requires Ends(provider, rank)
  {
    forall k :: 0 <= k <= |blocks| ==> KeepsAt(c, tip, blocks, provider, rank, k)
  }

  /** The first block is linked and its commits end. */
  ghost predicate First<T(!new)>(c: Context<T>, block: Block<T>, provider: Provider<T>, rank: int -> nat, z: Context<T>)
    requires Ends(provider, rank)
  {
    var r := ChainLink(block, provider, c.store, rank);
    r.Done? && Goes(c, r.value) && z == Put(c, r.value)
  }

  lemma KeepsRest<T(!new)>(c: Context<T>, tip: nat, blocks: seq<Block<T>>, provider: Provider<T>, rank: int -> nat,
                           k: nat)
    requires Ends(provider, rank) && k < |blocks|
    ensures KeepsAt(c, tip, blocks, provider, rank, k + 1)
       <==> exists z :: First(c, blocks[0], provider, rank, z) && KeepsAt(z, tip + 1, blocks[1..], provider, rank, k)
  {
    assert blocks[..k + 1][0] == blocks[0] && blocks[..k + 1][1..] == blocks[1..][..k];
    var r := ChainLink(blocks[0], provider, c.store, rank);
    if r.Done? && Goes(c, r.value) { assert First(c, blocks[0], provider, rank, Put(c, r.value)); }
  }

  lemma KeepsNone<T(!new)>(c: Context<T>, tip: nat, blocks: seq<Block<T>>, provider: Provider<T>, rank: int -> nat)
    requires Ends(provider, rank)
    ensures KeepsAt(c, tip, blocks, provider, rank, 0) <==> ChainUpTo(c.store, tip)
  {
    assert blocks[..0] == [];
  }

  lemma KeepsEveryRest<T(!new)>(c: Context<T>, tip: nat, blocks: seq<Block<T>>, provider: Provider<T>, rank: int -> nat,
                                z: Context<T>)
    requires Ends(provider, rank) && blocks != [] && ChainUpTo(c.store, tip) && First(c, blocks[0], provider, rank, z)
    ensures KeepsEvery(c, tip, blocks, provider, rank) <==> KeepsEvery(z, tip + 1, blocks[1..], provider, rank)
  {
    var rest, up := blocks[1..], tip + 1;
    KeepsNone(c, tip, blocks, provider, rank);
    forall k | 0 <= k <= |rest|
      ensures KeepsAt(c, tip, blocks, provider, rank, k + 1) <==> KeepsAt(z, up, rest, provider, rank, k)
    {
      KeepsRest(c, tip, blocks, provider, rank, k);
    }
    if KeepsEvery(c, tip, blocks, provider, rank) {
      forall k | 0 <= k <= |rest| ensures KeepsAt(z, up, rest, provider, rank, k) {
        assert KeepsAt(c, tip, blocks, provider, rank, k + 1);
      }
    }
    if KeepsEvery(z, up, rest, provider, rank) {
      forall k | 0 <= k <= |blocks| ensures KeepsAt(c, tip, blocks, provider, rank, k) {
        if k > 0 { assert KeepsAt(z, up, rest, provider, rank, k - 1); }
      }
    }
  }

  lemma UnlinkableBreaks<T(!new)>(c: Context<T>, tip: nat, blocks: seq<Block<T>>, provider: Provider<T>,
                                  heightOf: int -> int, rank: int -> nat)
    requires SoundAt(c, tip, heightOf) && HonestNode(provider, heightOf) && Ends(provider, rank)
    requires blocks != [] && blocks[0].height == tip + 1 && Honest(blocks[0], heightOf)
    requires !Linkable(c, blocks[0], provider, rank)
    ensures !KeepsEvery(c, tip, blocks, provider, rank)
  {
    LinkOne(c, tip, blocks[0], provider, heightOf, rank);
    forall z | First(c, blocks[0], provider, rank, z) ensures !KeepsAt(z, tip + 1, blocks[1..], provider, rank, 0) {
      KeepsNone(z, tip + 1, blocks[1..], provider, rank);
    }
    KeepsRest(c, tip, blocks, provider, rank, 0);
    assert !KeepsAt(c, tip, blocks, provider, rank, 0 + 1);
  }

  /** The first block of a served batch: the rest of the batch is served on what it leaves. */
  lemma ServedFirst<T(!new)>(c: Context<T>, tip: nat, blocks: seq<Block<T>>, provider: Provider<T>,
                             heightOf: int -> int, rank: int -> nat)
    returns (z: Context<T>)
    requires SoundAt(c, tip, heightOf) && HonestNode(provider, heightOf) && Ends(provider, rank)
    requires blocks != [] && blocks[0].height == tip + 1 && Honest(blocks[0], heightOf)
    requires Linkable(c, blocks[0], provider, rank)
    ensures First(c, blocks[0], provider, rank, z)
    ensures Served(c, blocks, provider, rank) <==> Served(z, blocks[1..], provider, rank)
    ensures LinkEach(c, blocks, provider, rank) == LinkEach(z, blocks[1..], provider, rank)
    ensures SoundAt(z, tip + 1, heightOf) && z.store.headers[tip + 1] == blocks[0]
  {
    LinkOne(c, tip, blocks[0], provider, heightOf, rank);
    z := Put(c, ChainLink(blocks[0], provider, c.store, rank).value);
  }

  /** A batch of next heights above the fork height is persisted with a chain after every block exactly if each block
      can be linked when its turn comes, whatever branch the blocks belong to. */
  lemma {:induction false} LinkEachKeepsChain<T(!new)>(c: Context<T>, tip: nat, blocks: seq<Block<T>>,
                                                       provider: Provider<T>, heightOf: int -> int, rank: int -> nat)
    requires SoundAt(c, tip, heightOf) && HonestNode(provider, heightOf)
    requires Ends(provider, rank) && NextHeights(tip, blocks, heightOf)
    ensures KeepsEvery(c, tip, blocks, provider, rank) <==> Served(c, blocks, provider, rank)
    decreases |blocks|
  {
    if blocks == [] {
      KeepsNone(c, tip, blocks, provider, rank);
    } else {
      NextRest(tip, blocks, heightOf);
      if Linkable(c, blocks[0], provider, rank) {
        var z := ServedFirst(c, tip, blocks, provider, heightOf, rank);
        KeepsEveryRest(c, tip, blocks, provider, rank, z);
        LinkEachKeepsChain(z, tip + 1, blocks[1..], provider, heightOf, rank);
      } else {
        UnlinkableBreaks(c, tip, blocks, provider, heightOf, rank);
      }
    }
  }

  /** Every block names the one before it as its parent, and the first one the tip. */
  ghost predicate Extends<T>(c: Context<T>, tip: nat, blocks: seq<Block<T>>) {
    && Chained(blocks)
    && (blocks != [] && tip > 0 ==> tip in c.store.headers && blocks[0].prev == c.store.headers[tip].hash)
  }

  lemma ExtendsRest<T>(c: Context<T>, tip: nat, blocks: seq<Block<T>>, z: Context<T>)
    requires blocks != [] && tip + 1 in z.store.headers && z.store.headers[tip + 1] == blocks[0]
    ensures Extends(c, tip, blocks) <==> Extends(c, tip, blocks[..1]) && Extends(z, tip + 1, blocks[1..])
  {
    var rest := blocks[1..];
    if Extends(c, tip, blocks[..1]) && Extends(z, tip + 1, rest) {
      forall i | 0 < i < |blocks| ensures blocks[i].prev == blocks[i - 1].hash {
        assert blocks[i] == rest[i - 1] && (i > 1 ==> blocks[i - 1] == rest[i - 2]);
      }
    }
  }

  lemma ExtendsFirst<T>(c: Context<T>, tip: nat, blocks: seq<Block<T>>, heightOf: int -> int)
    requires SoundAt(c, tip, heightOf) && blocks != [] && blocks[0].height == tip + 1 && Honest(blocks[0], heightOf)
    ensures Extends(c, tip, blocks[..1]) <==> Anchored(c.store, blocks[0])
    ensures Extends(c, tip, blocks) ==> Extends(c, tip, blocks[..1])
  {
    AnchoredAtTip(c.store, tip, blocks[0], heightOf);
  }

  /** A first block that names the tip: what is left to show is about the rest of the batch. */
  lemma DeferredRest<T(!new)>(c: Context<T>, tip: nat, blocks: seq<Block<T>>, provider: Provider<T>,
                              heightOf: int -> int, rank: int -> nat)
    returns (z: Context<T>, rest: seq<Block<T>>)
    requires SoundAt(c, tip, heightOf) && HonestNode(provider, heightOf) && c.deferred && Ends(provider, rank)
    requires NextHeights(tip, blocks, heightOf) && blocks != [] && Anchored(c.store, blocks[0])
    ensures |rest| < |blocks| && SoundAt(z, tip + 1, heightOf) && z.deferred && NextHeights(tip + 1, rest, heightOf)
    ensures KeepsEvery(c, tip, blocks, provider, rank) <==> KeepsEvery(z, tip + 1, rest, provider, rank)
    ensures Extends(c, tip, blocks) <==> Extends(z, tip + 1, rest)
  {
    NextRest(tip, blocks, heightOf);
    ExtendsFirst(c, tip, blocks, heightOf);
    z := ServedFirst(c, tip, blocks, provider, heightOf, rank);
    rest := blocks[1..];
    KeepsEveryRest(c, tip, blocks, provider, rank, z);
    ExtendsRest(c, tip, blocks, z);
  }

  /** Once flushes are deferred, nothing but extensions of the tip can be persisted: a batch leaves a chain after every
      block exactly if it is linked and its first block names the tip. */
  lemma {:induction false} DeferredExtendsOnly<T(!new)>(c: Context<T>, tip: nat, blocks: seq<Block<T>>,
                                                        provider: Provider<T>, heightOf: int -> int, rank: int -> nat)
    requires SoundAt(c, tip, heightOf) && HonestNode(provider, heightOf) && c.deferred
    requires Ends(provider, rank) && NextHeights(tip, blocks, heightOf)
    ensures KeepsEvery(c, tip, blocks, provider, rank) <==> Extends(c, tip, blocks)
    decreases |blocks|
  {
    if blocks == [] {
      KeepsNone(c, tip, blocks, provider, rank);
    } else if Anchored(c.store, blocks[0]) {
      var z, rest := DeferredRest(c, tip, blocks, provider, heightOf, rank);
      DeferredExtendsOnly(z, tip + 1, rest, provider, heightOf, rank);
    } else {
      ExtendsFirst(c, tip, blocks, heightOf);
      UnlinkableBreaks(c, tip, blocks, provider, heightOf, rank);
    }
  }

  /** All blocks were persisted: honest headers without a gap, and the last block at the tip. */
  ghost predicate Persisted<T(!new)>(out: (Context<T>, Ending), top: nat, last: Block<T>, heightOf: int -> int) {
    && out.1 == Complete && SoundAt(out.0, top, heightOf)
    && top in out.0.store.headers && out.0.store.headers[top] == last
  }

  /** A batch of next heights that can be persisted. */
  ghost predicate Servable<T(!new)>(c: Context<T>, tip: nat, blocks: seq<Block<T>>, provider: Provider<T>,
                                    heightOf: int -> int, rank: int -> nat)
    requires Ends(provider, rank)
  {
    && SoundAt(c, tip, heightOf) && HonestNode(provider, heightOf)
    && NextHeights(tip, blocks, heightOf) && Served(c, blocks, provider, rank)
  }

  lemma ServableRest<T(!new)>(c: Context<T>, tip: nat, blocks: seq<Block<T>>, provider: Provider<T>,
                              heightOf: int -> int, rank: int -> nat)
    returns (z: Context<T>, rest: seq<Block<T>>)
    requires Ends(provider, rank) && blocks != [] && Servable(c, tip, blocks, provider, heightOf, rank)
    ensures Servable(z, tip + 1, rest, provider, heightOf, rank) && |rest| == |blocks| - 1
    ensures LinkEach(c, blocks, provider, rank) == LinkEach(z, rest, provider, rank)
    ensures if rest == [] then tip + 1 in z.store.headers && z.store.headers[tip + 1] == blocks[|blocks| - 1]
            else rest[|rest| - 1] == blocks[|blocks| - 1]
  {
    NextRest(tip, blocks, heightOf);
    z := ServedFirst(c, tip, blocks, provider, heightOf, rank);
    rest := blocks[1..];
  }

  /** A served batch is persisted whole. */
  lemma {:induction false} ServedBatch<T(!new)>(c: Context<T>, tip: nat, blocks: seq<Block<T>>, provider: Provider<T>,
                                                heightOf: int -> int, rank: int -> nat)
    requires Ends(provider, rank) && blocks != [] && Servable(c, tip, blocks, provider, heightOf, rank)
    ensures Persisted(LinkEach(c, blocks, provider, rank), tip + |blocks|, blocks[|blocks| - 1], heightOf)
    decreases |blocks|
  {
    var z, rest := ServableRest(c, tip, blocks, provider, heightOf, rank);
    if rest != [] { ServedBatch(z, tip + 1, rest, provider, heightOf, rank); }
  }

  /** A run of blocks that can all be linked in their turn. */
  ghost predicate LinkedRun<T(!new)>(states: seq<Context<T>>, blocks: seq<Block<T>>, provider: Provider<T>,
                                     rank: int -> nat, k: nat)
    requires Ends(provider, rank)
  {
    && Run(states, blocks, provider, rank, k)
    && forall i :: 0 <= i < k ==> Linkable(states[i], blocks[i], provider, rank)
  }

  lemma LinkedRunFront<T(!new)>(states: seq<Context<T>>, blocks: seq<Block<T>>, provider: Provider<T>,
                                rank: int -> nat, k: nat)
    returns (front: seq<Context<T>>, c: Context<T>, d: Context<T>)
    requires Ends(provider, rank) && k > 0 && LinkedRun(states, blocks, provider, rank, k)
    ensures LinkedRun(front, blocks, provider, rank, k - 1) && front[0] == states[0] && front[k - 1] == c
    ensures c == states[k - 1] && d == states[k]
    ensures Linkable(c, blocks[k - 1], provider, rank) && Next(c, blocks[k - 1], provider, rank, d)
  {
    front, c, d := states[..k], states[k - 1], states[k];
    assert StepAt(states, blocks, provider, rank, k - 1);
    forall i: nat | i < k - 1
      ensures StepAt(front, blocks, provider, rank, i) && Linkable(front[i], blocks[i], provider, rank)
    {
      assert StepAt(states, blocks, provider, rank, i) && Linkable(states[i], blocks[i], provider, rank);
    }
  }

  /** After blocks that can all be linked in their turn there is a chain up to the last of them. */
  lemma {:induction false} RunLeavesChain<T(!new)>(states: seq<Context<T>>, tip: nat, blocks: seq<Block<T>>,
                                                   provider: Provider<T>, heightOf: int -> int, rank: int -> nat,
                                                   k: nat)
    requires Ends(provider, rank) && HonestNode(provider, heightOf) && NextHeights(tip, blocks, heightOf)
    requires LinkedRun(states, blocks, provider, rank, k) && SoundAt(states[0], tip, heightOf)
    ensures ChainAfter(states[k], tip, blocks, k, heightOf)
    decreases k
  {
    if k > 0 {
      var front, c, d := LinkedRunFront(states, blocks, provider, rank, k);
      RunLeavesChain(front, tip, blocks, provider, heightOf, rank, k - 1);
      HeightAt(tip, blocks, heightOf, k - 1);
      LinkedLeavesChain(c, tip, blocks, provider, heightOf, rank, k, d);
    }
  }

  /** There is a chain up to the `k`th block, which stands at its height. */
  ghost predicate ChainAfter<T>(c: Context<T>, tip: nat, blocks: seq<Block<T>>, k: nat, heightOf: int -> int)
    requires k <= |blocks|
  {
    SoundAt(c, tip + k, heightOf)
    && (k > 0 ==> tip + k in c.store.headers && c.store.headers[tip + k] == blocks[k - 1])
  }

  lemma HeightAt<T>(tip: nat, blocks: seq<Block<T>>, heightOf: int -> int, i: nat)
    requires NextHeights(tip, blocks, heightOf) && i < |blocks|
    ensures blocks[i].height == tip + i + 1 && Honest(blocks[i], heightOf)
  {
  }

  lemma LinkedLeavesChain<T(!new)>(c: Context<T>, tip: nat, blocks: seq<Block<T>>, provider: Provider<T>,
                                   heightOf: int -> int, rank: int -> nat, k: nat, d: Context<T>)
    requires Ends(provider, rank) && HonestNode(provider, heightOf) && 0 < k <= |blocks|
    requires blocks[k - 1].height == tip + k && Honest(blocks[k - 1], heightOf)
    requires ChainAfter(c, tip, blocks, k - 1, heightOf)
    requires Linkable(c, blocks[k - 1], provider, rank) && Next(c, blocks[k - 1], provider, rank, d)
    ensures ChainAfter(d, tip, blocks, k, heightOf)
  {
    var top := LinkedStep(c, tip + k - 1, blocks[k - 1], provider, heightOf, rank, d);
  }

  lemma LinkedStep<T(!new)>(c: Context<T>, tip: nat, block: Block<T>, provider: Provider<T>,
                            heightOf: int -> int, rank: int -> nat, d: Context<T>)
    returns (top: nat)
    requires Ends(provider, rank) && HonestNode(provider, heightOf) && SoundAt(c, tip, heightOf)
    requires block.height == tip + 1 && Honest(block, heightOf)
    requires Linkable(c, block, provider, rank) && Next(c, block, provider, rank, d)
    ensures top == tip + 1 && SoundAt(d, top, heightOf) && top in d.store.headers && d.store.headers[top] == block
  {
    top := tip + 1;
    var fork := ChainLink(block, provider, c.store, rank).value;
    LinkOne(c, tip, block, provider, heightOf, rank);
    TakenIsPut(c, fork, d);
    assert LinkedIn(c.store, tip, block, fork, heightOf);
  }

  /** A batch that stops after blocks that were all linked. With honest hashes the walk does not panic. If it fails, the
      headers are a chain up to the last linked block and nothing is stored above. If a replacement hangs, the chain
      below its fork is what is left. */
  lemma StopLeavesChain<T(!new)>(states: seq<Context<T>>, tip: nat, blocks: seq<Block<T>>, provider: Provider<T>,
                                 heightOf: int -> int, rank: int -> nat, k: nat, z: Context<T>, r: Ending)
    requires Ends(provider, rank) && HonestNode(provider, heightOf) && NextHeights(tip, blocks, heightOf)
    requires LinkedRun(states, blocks, provider, rank, k) && SoundAt(states[0], tip, heightOf) && k < |blocks|
    requires StopsAt(states[k], blocks[k], provider, rank, z, r)
    ensures EndsWith(states[0], blocks, provider, rank, z, r) && !r.Panic?
    ensures r.Error? ==> SoundAt(z, tip + k, heightOf) && forall h :: h > tip + k ==> h !in z.store.headers
    ensures r.Hang? && Fetchable(blocks[k], provider, states[k].store, rank) ==>
              var fork := ChainLink(blocks[k], provider, states[k].store, rank).value;
              1 <= fork[0].height <= tip + k && ChainUpTo(z.store, fork[0].height - 1)
  {
    RunLeavesChain(states, tip, blocks, provider, heightOf, rank, k);
    LinkOne(states[k], tip + k, blocks[k], provider, heightOf, rank);
    assert Run(states, blocks, provider, rank, k) && StopsAt(states[k], blocks[k], provider, rank, z, r);
    if r.Hang? && Fetchable(blocks[k], provider, states[k].store, rank) {
      AloneExactly(states[k].store, blocks[k], provider, rank);
      HungLeavesChain(states[k], tip + k, blocks[k], provider, heightOf, rank);
    }
  }

  lemma {:induction false} HungLeavesChain<T(!new)>(c: Context<T>, tip: nat, block: Block<T>, provider: Provider<T>,
                                                    heightOf: int -> int, rank: int -> nat)
    requires SoundAt(c, tip, heightOf) && HonestNode(provider, heightOf) && Ends(provider, rank)
    requires block.height == tip + 1 && Honest(block, heightOf) && c.deferred
    requires Fetchable(block, provider, c.store, rank) && !Anchored(c.store, block)
    ensures var fork := ChainLink(block, provider, c.store, rank);
            && fork.Done? && |fork.value| > 1 && 1 <= fork.value[0].height <= tip
            && ChainUpTo(DeleteAll(c.store, fork.value), fork.value[0].height - 1)
  {
    ReplacementHangs(c, tip, [block], provider, heightOf, rank);
  }

  /** A node that serves the parent of block 30 on a branch from block 10, and no parent of block 20. */
  function BranchNode(hash: int): Result<Option<Block<()>>, string> {
    if hash == 29 then Ok(Some(Block(2, 29, 10, ()))) else Ok(None)
  }

  function BranchRank(hash: int): nat {
    if hash == 29 then 1 else 0
  }

  lemma {:induction false} SecondOfTwo<T(!new)>(c: Context<T>, blocks: seq<Block<T>>, provider: Provider<T>,
                                                rank: int -> nat, fork: seq<Block<T>>)
    requires Ends(provider, rank) && |blocks| == 2 && Goes(c, fork)
    requires ChainLink(blocks[0], provider, c.store, rank) == Done([])
    requires ChainLink(blocks[1], provider, c.store, rank) == Done(fork)
    ensures LinkEach(c, blocks, provider, rank) == (Put(c, fork), Complete)
  {
    var rest := blocks[1..];
    assert rest == [blocks[1]] && rest[1..] == [];
    assert LinkEach(c, rest, provider, rank) == LinkEach(Put(c, fork), rest[1..], provider, rank);
    assert LinkEach(c, blocks, provider, rank) == LinkEach(Put(c, []), rest, provider, rank);
  }

  /** After the whole batch alone there may be a chain also without that: a later block's branch can fill the gap
      that an earlier block left. */
  lemma {:induction false} LaterBlockRepairs(c: Context<()>, blocks: seq<Block<()>>)
    requires c == Context(Store(map[1 := Block(1, 10, 0, ())], {(10, 1)}), true, false)
    requires blocks == [Block(2, 20, 19, ()), Block(3, 30, 29, ())]
    ensures ChainUpTo(c.store, 1) && Ends(BranchNode, BranchRank) && !Served(c, blocks, BranchNode, BranchRank)
    ensures var (z, r) := LinkEach(c, blocks, BranchNode, BranchRank); r == Complete && ChainUpTo(z.store, 3)
  {
    var older := Block(2, 29, 10, ());
    BranchWalks(c.store, blocks[0], older, blocks[1]);
    SecondOfTwo(c, blocks, BranchNode, BranchRank, [older, blocks[1]]);
    BranchReplaces(c.store, older, blocks[1]);
  }

  lemma {:induction false} BranchReplaces(s: Store<()>, older: Block<()>, newer: Block<()>)
    requires s == Store(map[1 := Block(1, 10, 0, ())], {(10, 1)})
    requires older == Block(2, 29, 10, ()) && newer == Block(3, 30, 29, ())
    ensures ChainUpTo(s, 1) && ChainUpTo(Place(s, [older, newer]), 3)
  {
    PlaceAboveTip(s, 1, [older, newer]);
  }

  lemma {:induction false} BranchWalks(s: Store<()>, lost: Block<()>, older: Block<()>, newer: Block<()>)
    requires s == Store(map[1 := Block(1, 10, 0, ())], {(10, 1)})
    requires lost == Block(2, 20, 19, ()) && older == Block(2, 29, 10, ()) && newer == Block(3, 30, 29, ())
    ensures ChainLink(lost, BranchNode, s, BranchRank) == Done([]) && !Fetchable(lost, BranchNode, s, BranchRank)
    ensures ChainLink(newer, BranchNode, s, BranchRank) == Done([older, newer])
  {
    FirstRow(s);
    assert ChainLink(older, BranchNode, s, BranchRank) == Done([older]);
    assert [older] + [newer] == [older, newer];
  }

  lemma FirstRow(s: Store<()>)
    requires s == Store(map[1 := Block(1, 10, 0, ())], {(10, 1)})
    ensures FirstByHash(s, 10) == Ok(Some(Block(1, 10, 0, ())))
    ensures forall hash :: hash != 10 ==> FirstByHash(s, hash) == Ok(None)
  {
    assert HeightsOf(s, 10) == {1};
  }

  // ---- a whole synchronisation --------------------------------------------------------------------------------

  /** A batch for persistence and the node as it answers meanwhile. */
  datatype Delivery<!T> = Delivery(blocks: seq<Block<T>>, provider: Provider<T>)

  /** A batch that arrives well: next heights, honest hashes; an extension of the tip while the chain is old, and blocks
      that can be linked near the tip. */
  ghost predicate Arrives<T(!new)>(c: Context<T>, tip: nat, d: Delivery<T>, forkHeight: nat, heightOf: int -> int) {
    && HonestNode(d.provider, heightOf) && NextHeights(tip, d.blocks, heightOf)
    && if tip + |d.blocks| <= forkHeight then Extends(c, tip, d.blocks)
       else (HonestEnds(d.provider, heightOf); Served(c, d.blocks, d.provider, HeightRank(heightOf)))
  }

  lemma ExtensionKeepsChain<T(!new)>(c: Context<T>, tip: nat, blocks: seq<Block<T>>, heightOf: int -> int)
    returns (z: Context<T>)
    requires SoundAt(c, tip, heightOf) && NextHeights(tip, blocks, heightOf) && Extends(c, tip, blocks) && blocks != []
    ensures z == Stored(c, StoreAll(c.store, blocks), true) && SoundAt(z, tip + |blocks|, heightOf)
  {
    z := Stored(c, StoreAll(c.store, blocks), true);
    LinkedBatchStored(c.store, tip, blocks);
    forall h | 1 <= h <= tip + |blocks| ensures Honest(StoreAll(c.store, blocks).headers[h], heightOf) {
      StoredAtHeight(c.store, blocks, h);
    }
  }

  lemma DeliveryKeepsChain<T(!new)>(c: Context<T>, tip: nat, d: Delivery<T>, forkHeight: nat, heightOf: int -> int)
    requires SoundAt(c, tip, heightOf) && Arrives(c, tip, d, forkHeight, heightOf)
    requires Ends(d.provider, HeightRank(heightOf))
    ensures var (z, r) := Persist(c, d.blocks, forkHeight, d.provider, HeightRank(heightOf));
            r == Complete && SoundAt(z, tip + |d.blocks|, heightOf)
  {
    if d.blocks == [] {
    } else if tip + |d.blocks| <= forkHeight {
      var z := ExtensionKeepsChain(c, tip, d.blocks, heightOf);
    } else {
      ServedBatch(c, tip, d.blocks, d.provider, heightOf, HeightRank(heightOf));
    }
  }

  datatype State<T> = State(context: Context<T>, tip: nat)

  ghost predicate Sound<T>(a: State<T>, heightOf: int -> int) {
    SoundAt(a.context, a.tip, heightOf)
  }

  ghost predicate Step<T(!new)>(a: State<T>, d: Delivery<T>, b: State<T>, forkHeight: nat, heightOf: int -> int) {
    && Arrives(a.context, a.tip, d, forkHeight, heightOf)
    && (HonestEnds(d.provider, heightOf);
        b == State(Persist(a.context, d.blocks, forkHeight, d.provider, HeightRank(heightOf)).0, a.tip + |d.blocks|))
  }

  /** `states` is the run of the deliveries. */
  ghost predicate Steps<T(!new)>(states: seq<State<T>>, run: seq<Delivery<T>>, forkHeight: nat, heightOf: int -> int) {
    |states| == |run| + 1 && forall j :: 0 <= j < |run| ==> Step(states[j], run[j], states[j + 1], forkHeight, heightOf)
  }

  lemma StepKeepsChain<T(!new)>(states: seq<State<T>>, run: seq<Delivery<T>>, forkHeight: nat, heightOf: int -> int,
                                j: nat)
    requires Steps(states, run, forkHeight, heightOf) && j < |run| && Sound(states[j], heightOf)
    ensures Sound(states[j + 1], heightOf)
  {
    assert Step(states[j], run[j], states[j + 1], forkHeight, heightOf);
    HonestEnds(run[j].provider, heightOf);
    DeliveryKeepsChain(states[j].context, states[j].tip, run[j], forkHeight, heightOf);
  }

  /** However many batches arrive, whatever their sizes: if all arrive well, then in every state of the run the stored
      chain has no gap and no broken link. */
  lemma {:induction false} RunKeepsChain<T(!new)>(states: seq<State<T>>, run: seq<Delivery<T>>, forkHeight: nat,
                                                  heightOf: int -> int, i: nat)
    requires Steps(states, run, forkHeight, heightOf) && i <= |run| && Sound(states[0], heightOf)
    ensures Sound(states[i], heightOf)
  {
    if i > 0 {
      RunKeepsChain(states, run, forkHeight, heightOf, i - 1);
      StepKeepsChain(states, run, forkHeight, heightOf, i - 1);
    }
  }
}
