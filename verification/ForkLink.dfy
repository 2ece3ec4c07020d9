/**
 Linking blocks to the stored chain: the walk back to a stored ancestor, and what the replacement of the
 losing branch leaves. A hash identifies a block, so it is an integer here; block bodies are opaque.
 */
module ForkLink {
  import opened Wrappers
  import opened Basics

  datatype Block<T> = Block(height: nat, hash: int, prev: int, body: T)

  /** Stored headers by height, and the index from hash to heights. */
  datatype Store<T> = Store(headers: map<nat, Block<T>>, byHash: set<(int, nat)>)

  /** A call that may also end in a panic. */
  datatype Outcome<T> = Done(value: T) | Failed(error: string) | Panicked

  /** What the node answers for a hash. */
  type Provider<T> = int -> Result<Option<Block<T>>, string>

  // ---- the store --------------------------------------------------------------------------------------------

  function StoreBlock<T>(s: Store<T>, b: Block<T>): Store<T> {
    Store(s.headers[b.height := b], s.byHash + {(b.hash, b.height)})
  }

  function DeleteBlock<T>(s: Store<T>, height: nat): Store<T> {
    if height in s.headers then Store(s.headers - {height}, s.byHash - {(s.headers[height].hash, height)}) else s
  }

  function StoreAll<T>(s: Store<T>, blocks: seq<Block<T>>): Store<T> {
    if blocks == [] then s else StoreBlock(StoreAll(s, blocks[..|blocks| - 1]), blocks[|blocks| - 1])
  }

  function DeleteAll<T>(s: Store<T>, blocks: seq<Block<T>>): Store<T> {
    if blocks == [] then s else DeleteBlock(DeleteAll(s, blocks[..|blocks| - 1]), blocks[|blocks| - 1].height)
  }

  function HeightsOf<T>(s: Store<T>, hash: int): set<nat> {
    set p | p in s.byHash && p.0 == hash :: p.1
  }

  /** The first header found by hash; an index row without a header is an error. */
  function FirstByHash<T>(s: Store<T>, hash: int): (r: Result<Option<Block<T>>, string>)
    ensures r == Ok(None) <==> forall h :: (hash, h) !in s.byHash
    ensures r.Err? <==> exists h :: (hash, h) in s.byHash && h !in s.headers
    ensures r.Ok? && r.value.Some? ==>
              exists h :: (hash, h) in s.byHash && h in s.headers && s.headers[h] == r.value.value
                          && forall other :: (hash, other) in s.byHash ==> h <= other
  {
    var heights := HeightsOf(s, hash);
    assert forall h :: (hash, h) in s.byHash ==> h in heights;
    if heights == {} then Ok(None)
    else if exists h :: h in heights && h !in s.headers then Err("not found")
    else
      LeastExists(heights);
      var h :| IsLeast(h, heights);
      Ok(Some(s.headers[h]))
  }

  // ---- the walk ---------------------------------------------------------------------------------------------

  /** Walking from hash to hash along the served parents ends: `rank` falls at every step. Otherwise the walk need not
      end. */
  ghost predicate Ends<T(!new)>(provider: Provider<T>, rank: int -> nat) {
    forall hash: int :: var r := provider(hash); r.Ok? && r.value.Some? ==> rank(r.value.value.prev) < rank(hash)
  }

  /** Walks from a block to a stored ancestor and returns the fork, oldest block first. */
  function ChainLink<T(!new)>(block: Block<T>, provider: Provider<T>, s: Store<T>, ghost rank: int -> nat)
    : Outcome<seq<Block<T>>>
    requires Ends(provider, rank)
    decreases rank(block.prev)
  {
    match FirstByHash(s, block.prev)
    case Err(e) => Failed(e)
    case Ok(found) =>
      if block.height == 1 then Done([block])
      else if found.Some? && found.value.height + 1 == block.height then Done([block])
      else if found.Some? then Panicked
      else
        match provider(block.prev)
        case Err(e) => Failed(e)
        case Ok(None) => Done([])
        case Ok(Some(parent)) =>
          var fork := ChainLink(parent, provider, s, rank);
          if fork.Done? then Done(fork.value + [block]) else fork
  }

  /** Heights grow by one and every block names the one before it as its parent. */
  ghost predicate Linked<T>(blocks: seq<Block<T>>) {
    forall i :: 0 < i < |blocks| ==>
      blocks[i].height == blocks[i - 1].height + 1 && blocks[i].prev == blocks[i - 1].hash
  }

  /** Where the walk may stop: at height 1, or right above a stored header. */
  ghost predicate Anchored<T>(s: Store<T>, b: Block<T>) {
    var found := FirstByHash(s, b.prev);
    b.height == 1 || (found.Ok? && found.value.Some? && found.value.value.height + 1 == b.height)
  }

  /** The node serves every ancestor between the block and its anchor. */
  ghost predicate Fetchable<T(!new)>(block: Block<T>, provider: Provider<T>, s: Store<T>, rank: int -> nat)
    requires Ends(provider, rank)
    decreases rank(block.prev)
  {
    Anchored(s, block)
    || var parent := provider(block.prev);
       parent.Ok? && parent.value.Some? && Fetchable(parent.value.value, provider, s, rank)
  }

  ghost predicate ByHash<T(!new)>(provider: Provider<T>) {
    forall hash: int :: var r := provider(hash); r.Ok? && r.value.Some? ==> r.value.value.hash == hash
  }

  /** Every block names the one before it as its parent. */
  ghost predicate Chained<T>(blocks: seq<Block<T>>) {
    forall i :: 0 < i < |blocks| ==> blocks[i].prev == blocks[i - 1].hash
  }

  /** A fork is a run of served blocks that name each other as parents and end in the given block. */
  lemma {:induction false} LinkShape<T(!new)>(block: Block<T>, provider: Provider<T>, s: Store<T>, rank: int -> nat)
    requires Ends(provider, rank) && ByHash(provider) && ChainLink(block, provider, s, rank).Done?
    ensures var fork := ChainLink(block, provider, s, rank).value;
            && Chained(fork)
            && (fork != [] ==> fork[|fork| - 1] == block)
            && forall i :: 0 <= i < |fork| - 1 ==> provider(fork[i].hash) == Ok(Some(fork[i]))
    decreases rank(block.prev)
  {
    var fork, parent := ChainLink(block, provider, s, rank).value, provider(block.prev);
    if |fork| > 1 { LinkShape(parent.value.value, provider, s, rank); }
  }

  /** The walk returns nothing exactly when the direct parent is neither stored nor served, and what it returns is
      anchored exactly when every missing ancestor is served. */
  lemma {:induction false} LinkExact<T(!new)>(block: Block<T>, provider: Provider<T>, s: Store<T>, rank: int -> nat)
    requires Ends(provider, rank) && ChainLink(block, provider, s, rank).Done?
    ensures var fork := ChainLink(block, provider, s, rank).value;
            && (fork == [] <==> !Anchored(s, block) && provider(block.prev) == Ok(None))
            && (fork == [] ==> !Fetchable(block, provider, s, rank))
            && (fork != [] ==> (Anchored(s, fork[0]) <==> Fetchable(block, provider, s, rank)))
    decreases rank(block.prev)
  {
    var fork, parent := ChainLink(block, provider, s, rank).value, provider(block.prev);
    if !Anchored(s, block) && parent != Ok(None) {
      LinkExact(parent.value.value, provider, s, rank);
      var older := ChainLink(parent.value.value, provider, s, rank).value;
      assert fork == older + [block];
    }
  }

  /** The block at which the walk ends: the first one at height 1, or whose parent is found or not served. */
  ghost function WalkEnd<T(!new)>(block: Block<T>, provider: Provider<T>, s: Store<T>, rank: int -> nat): Block<T>
    requires Ends(provider, rank)
    decreases rank(block.prev)
  {
    var parent := provider(block.prev);
    if FirstByHash(s, block.prev) == Ok(None) && block.height != 1 && parent.Ok? && parent.value.Some?
    then WalkEnd(parent.value.value, provider, s, rank)
    else block
  }

  /** How the walk ends, by what it meets at its last block: it fails exactly if the index or the node does, with that
      error, and panics exactly if it finds a header that is not right below. */
  lemma {:induction false} LinkCause<T(!new)>(block: Block<T>, provider: Provider<T>, s: Store<T>, rank: int -> nat)
    requires Ends(provider, rank)
    ensures var r, last := ChainLink(block, provider, s, rank), WalkEnd(block, provider, s, rank);
            var found, served := FirstByHash(s, last.prev), provider(last.prev);
            && (forall e :: r == Failed(e) <==>
                  found == Err(e) || (found == Ok(None) && last.height != 1 && served == Err(e)))
            && (r.Panicked? <==>
                  found.Ok? && found.value.Some? && last.height != 1 && found.value.value.height + 1 != last.height)
            && (r.Done? <==> found.Ok? && (Anchored(s, last) || (found.value.None? && served == Ok(None))))
    decreases rank(block.prev)
  {
    var parent := provider(block.prev);
    if FirstByHash(s, block.prev) == Ok(None) && block.height != 1 && parent.Ok? && parent.value.Some? {
      LinkCause(parent.value.value, provider, s, rank);
    }
  }

  // ---- persisting -------------------------------------------------------------------------------------------

  /** What a fork leaves when its commits end: nothing new, a plain store, or the replacement of what is stored at its
      heights. */
  function Place<T>(s: Store<T>, fork: seq<Block<T>>): Store<T> {
    if |fork| == 0 then s else if |fork| == 1 then StoreAll(s, fork) else StoreAll(DeleteAll(s, fork), fork)
  }

  // ---- the stored chain ---------------------------------------------------------------------------------------

  /** The index has a row for every stored header and no other. */
  ghost predicate Indexed<T>(s: Store<T>) {
    forall hash, h :: (hash, h) in s.byHash <==> h in s.headers && s.headers[h].hash == hash
  }

  /** A chain without gaps from height 1 to `tip`, in which every header names the one below as its parent. */
  ghost predicate ChainUpTo<T>(s: Store<T>, tip: nat) {
    && (forall h :: h in s.headers <==> 1 <= h <= tip)
    && (forall h :: h in s.headers ==> s.headers[h].height == h)
    && (forall h, below :: h in s.headers && below in s.headers && h == below + 1 ==>
         s.headers[h].prev == s.headers[below].hash)
    && Indexed(s)
  }

  lemma {:induction false} DeleteAllKeeps<T>(s: Store<T>, blocks: seq<Block<T>>)
    requires Indexed(s)
    ensures var d := DeleteAll(s, blocks);
            && Indexed(d)
            && (forall h ::
                  h in d.headers <==> h in s.headers && forall i :: 0 <= i < |blocks| ==> blocks[i].height != h)
            && (forall h :: h in d.headers ==> d.headers[h] == s.headers[h])
  {
    if blocks != [] {
      var m := |blocks| - 1;
      DeleteAllKeeps(s, blocks[..m]);
    }
  }

  lemma {:induction false} LinkedHeights<T>(fork: seq<Block<T>>)
    requires Linked(fork)
    ensures forall i :: 0 <= i < |fork| ==> fork[i].height == fork[0].height + i
  {
    if |fork| > 1 {
      LinkedHeights(fork[..|fork| - 1]);
      assert fork[|fork| - 2] == fork[..|fork| - 1][|fork| - 2];
    }
  }

  /** Storing a linked run sets its own heights and no others. */
  lemma {:induction false} StoredAtHeight<T>(s: Store<T>, blocks: seq<Block<T>>, h: nat)
    requires Linked(blocks)
    ensures var z := StoreAll(s, blocks);
            if blocks != [] && blocks[0].height <= h < blocks[0].height + |blocks|
            then h in z.headers && z.headers[h] == blocks[h - blocks[0].height]
            else (h in z.headers <==> h in s.headers) && (h in s.headers ==> z.headers[h] == s.headers[h])
  {
    if blocks != [] {
      LinkedHeights(blocks);
      StoredAtHeight(s, blocks[..|blocks| - 1], h);
    }
  }

  /** Storing keeps the index exact if the heights were free. */
  lemma {:induction false} StoreAllIndexed<T>(s: Store<T>, blocks: seq<Block<T>>)
    requires Linked(blocks) && Indexed(s) && forall i :: 0 <= i < |blocks| ==> blocks[i].height !in s.headers
    ensures Indexed(StoreAll(s, blocks))
  {
    if blocks != [] {
      var m := |blocks| - 1;
      StoreAllIndexed(s, blocks[..m]);
      LinkedHeights(blocks);
      StoredAtHeight(s, blocks[..m], blocks[m].height);
    }
  }

  /** A node that serves one block only, whose parent is nowhere. */
  function OneBlockNode(hash: int): Result<Option<Block<()>>, string> {
    if hash == 40 then Ok(Some(Block(4, 40, 30, ()))) else Ok(None)
  }

  function OneBlockRank(hash: int): nat {
    if hash == 40 then 1 else 0
  }

  lemma {:induction false} WalkEndsInAir(s: Store<()>, block: Block<()>)
    requires block.height == 5 && block.prev == 40 && FirstByHash(s, 40) == Ok(None) && FirstByHash(s, 30) == Ok(None)
    ensures Ends(OneBlockNode, OneBlockRank) && ChainLink(block, OneBlockNode, s, OneBlockRank) == Done([block])
  {
    assert ChainLink(Block(4, 40, 30, ()), OneBlockNode, s, OneBlockRank) == Done([]);
    assert [] + [block] == [block];
  }

  /** A missing grandparent goes unnoticed: the fork starts in the air and is stored above a gap. */
  lemma MissingGrandparentLeavesGap()
    ensures var s: Store<()> := Store(map[1 := Block(1, 10, 0, ())], {(10, 1)});
            var block := Block(5, 50, 40, ());
            && ChainUpTo(s, 1) && Ends(OneBlockNode, OneBlockRank)
            && ChainLink(block, OneBlockNode, s, OneBlockRank) == Done([block])
            && Place(s, [block]).headers.Keys == {1, 5}
  {
    var s: Store<()> := Store(map[1 := Block(1, 10, 0, ())], {(10, 1)});
    var block := Block(5, 50, 40, ());
    WalkEndsInAir(s, block);
    assert StoreAll(s, [block]) == StoreBlock(s, block);
  }

  /** What a placed fork leaves at a height: its block there, or what was there. */
  lemma PlacedAt<T>(s: Store<T>, tip: nat, fork: seq<Block<T>>, h: nat)
    requires ChainUpTo(s, tip) && Linked(fork) && fork != []
    ensures var first, z := fork[0].height, Place(s, fork);
            if first <= h < first + |fork|
            then h in z.headers && z.headers[h] == fork[h - first]
            else (h in z.headers <==> h in s.headers) && (h in s.headers ==> z.headers[h] == s.headers[h])
  {
    LinkedHeights(fork);
    if |fork| == 1 {
      StoredAtHeight(s, fork, h);
    } else {
      DeleteAllKeeps(s, fork);
      StoredAtHeight(DeleteAll(s, fork), fork, h);
      if !(fork[0].height <= h < fork[0].height + |fork|) { assert h in s.headers ==> h in DeleteAll(s, fork).headers; }
    }
  }

  lemma PlacedIndexed<T>(s: Store<T>, tip: nat, fork: seq<Block<T>>)
    requires ChainUpTo(s, tip) && Linked(fork) && fork != [] && (|fork| > 1 || fork[0].height > tip)
    ensures Indexed(Place(s, fork))
  {
    if |fork| == 1 {
      StoreAllIndexed(s, fork);
    } else {
      DeleteAllKeeps(s, fork);
      StoreAllIndexed(DeleteAll(s, fork), fork);
    }
  }

  /** Whether the header at `h` names the one below it, after a fork that hangs on the stored chain is placed. */
  lemma PlacedLink<T>(s: Store<T>, tip: nat, fork: seq<Block<T>>, h: nat)
    requires ChainUpTo(s, tip) && Linked(fork) && fork != [] && Hangs(s, fork)
    requires 1 <= h && (h <= tip || h < fork[0].height + |fork|)
    ensures var z := Place(s, fork);
            && h in z.headers && z.headers[h].height == h
            && (h > 1 ==> h - 1 in z.headers)
            && (h > 1 && h != fork[0].height + |fork| ==> z.headers[h].prev == z.headers[h - 1].hash)
  {
    LinkedHeights(fork);
    PlacedAt(s, tip, fork, h);
    if h > 1 { PlacedAt(s, tip, fork, h - 1); }
  }

  /** The fork starts at height 1 or names a stored header right below it. */
  ghost predicate Hangs<T>(s: Store<T>, fork: seq<Block<T>>)
    requires fork != []
  {
    && fork[0].height >= 1
    && (fork[0].height > 1 ==>
          fork[0].height - 1 in s.headers && s.headers[fork[0].height - 1].hash == fork[0].prev)
  }

  /** A fork that hangs on the stored chain and reaches above the tip leaves a chain up to its last block. */
  lemma PlaceAboveTip<T>(s: Store<T>, tip: nat, fork: seq<Block<T>>)
    requires ChainUpTo(s, tip) && Linked(fork) && fork != [] && Hangs(s, fork)
    requires fork[|fork| - 1].height > tip
    ensures ChainUpTo(Place(s, fork), fork[|fork| - 1].height)
  {
    LinkedHeights(fork);
    PlacedIndexed(s, tip, fork);
    var top := fork[|fork| - 1].height;
    forall h: nat ensures h in Place(s, fork).headers <==> 1 <= h <= top {
      PlacedAt(s, tip, fork, h);
    }
    forall h | 1 <= h <= top
      ensures Place(s, fork).headers[h].height == h
              && (h > 1 ==> Place(s, fork).headers[h].prev == Place(s, fork).headers[h - 1].hash)
    {
      PlacedLink(s, tip, fork, h);
    }
  }

  /** A stop between the two commits of a replacement leaves the chain below the fork exactly if the fork reaches the
      tip; otherwise it leaves a gap. */
  lemma {:induction false} StoppedBetween<T>(s: Store<T>, tip: nat, fork: seq<Block<T>>)
    requires ChainUpTo(s, tip) && Linked(fork) && fork != [] && 1 <= fork[0].height <= tip + 1
    ensures ChainUpTo(DeleteAll(s, fork), fork[0].height - 1) <==> fork[|fork| - 1].height >= tip
    ensures fork[|fork| - 1].height < tip ==> forall t :: !ChainUpTo(DeleteAll(s, fork), t)
  {
    var first, d := fork[0].height, DeleteAll(s, fork);
    LinkedHeights(fork);
    DeleteAllKeeps(s, fork);
    forall h: nat ensures h in d.headers <==> 1 <= h <= tip && !(first <= h < first + |fork|) {
      if first <= h < first + |fork| { assert fork[h - first].height == h; }
    }
    if fork[|fork| - 1].height < tip { assert tip in d.headers && first !in d.headers; }
  }

  /** When the fork ends at or below the tip, a chain is left exactly if its last block has the hash that is stored at
      its height, or it replaces the tip together with the tip's parent: a lone block overwrites a header without
      removing its index row, and a header below the tip keeps a child that names the old hash. */
  lemma PlaceBelowTip<T>(s: Store<T>, tip: nat, fork: seq<Block<T>>)
    requires ChainUpTo(s, tip) && Linked(fork) && fork != [] && Hangs(s, fork)
    requires 1 <= fork[|fork| - 1].height <= tip
    ensures var top := fork[|fork| - 1].height;
            ChainUpTo(Place(s, fork), tip) <==>
              fork[|fork| - 1].hash == s.headers[top].hash || (top == tip && |fork| > 1)
  {
    LinkedHeights(fork);
    var top, last := fork[|fork| - 1].height, fork[|fork| - 1];
    PlacedAt(s, tip, fork, top);
    if last.hash == s.headers[top].hash || (top == tip && |fork| > 1) {
      PlaceBelowKeeps(s, tip, fork);
    } else if top < tip {
      PlacedAt(s, tip, fork, top + 1);
    } else {
      assert StoreAll(s, fork) == StoreBlock(s, fork[0]);
      assert (s.headers[top].hash, top) in Place(s, fork).byHash;
    }
  }

  lemma PlaceBelowKeeps<T>(s: Store<T>, tip: nat, fork: seq<Block<T>>)
    requires ChainUpTo(s, tip) && Linked(fork) && fork != [] && Hangs(s, fork)
    requires 1 <= fork[|fork| - 1].height <= tip
    requires fork[|fork| - 1].hash == s.headers[fork[|fork| - 1].height].hash
             || (fork[|fork| - 1].height == tip && |fork| > 1)
    ensures ChainUpTo(Place(s, fork), tip)
  {
    LinkedHeights(fork);
    var top := fork[|fork| - 1].height;
    forall h: nat ensures h in Place(s, fork).headers <==> 1 <= h <= tip {
      PlacedAt(s, tip, fork, h);
    }
    forall h | 1 <= h <= tip
      ensures Place(s, fork).headers[h].height == h
              && (h > 1 ==> Place(s, fork).headers[h].prev == Place(s, fork).headers[h - 1].hash)
    {
      PlacedLink(s, tip, fork, h);
      if h == top + 1 { PlacedAt(s, tip, fork, h); PlacedAt(s, tip, fork, top); }
    }
    assert Indexed(Place(s, fork)) by {
      if |fork| > 1 {
        PlacedIndexed(s, tip, fork);
      } else {
        assert StoreAll(s, fork) == StoreBlock(s, fork[0]);
      }
    }
  }

  // ---- honest hashes ------------------------------------------------------------------------------------------

  /** A hash commits to a height, and a block's parent is one lower. */
  ghost predicate Honest<T>(b: Block<T>, heightOf: int -> int) {
    heightOf(b.hash) == b.height && heightOf(b.prev) == b.height - 1
  }

  ghost predicate HonestNode<T(!new)>(provider: Provider<T>, heightOf: int -> int) {
    forall hash: int :: var r := provider(hash);
      r.Ok? && r.value.Some? ==> r.value.value.hash == hash && Honest(r.value.value, heightOf)
  }

  ghost predicate HonestStore<T>(s: Store<T>, heightOf: int -> int) {
    forall h :: h in s.headers ==> Honest(s.headers[h], heightOf)
  }

  /** A rank for the hashes of an honest node: one more than the height. */
  ghost function HeightRank(heightOf: int -> int): int -> nat {
    hash => if heightOf(hash) < 0 then 0 else heightOf(hash) + 1
  }

  lemma HonestEnds<T(!new)>(provider: Provider<T>, heightOf: int -> int)
    requires HonestNode(provider, heightOf)
    ensures Ends(provider, HeightRank(heightOf))
  {
  }

  /** In a stored chain a hash is found at its own height or not at all. */
  lemma FoundAtHeight<T>(s: Store<T>, tip: nat, hash: int, heightOf: int -> int)
    requires ChainUpTo(s, tip) && HonestStore(s, heightOf)
    ensures FirstByHash(s, hash).Ok?
    ensures var found := FirstByHash(s, hash).value;
            found.Some? ==> found.value.hash == hash && found.value.height == heightOf(hash)
                            && found.value.height in s.headers && s.headers[found.value.height] == found.value
  {
  }

  /** With honest hashes a fork is linked, and every block of it is honest. */
  lemma {:induction false} LinkHonest<T(!new)>(s: Store<T>, block: Block<T>, provider: Provider<T>,
                                               heightOf: int -> int, rank: int -> nat)
    requires Ends(provider, rank) && HonestNode(provider, heightOf) && Honest(block, heightOf)
    requires ChainLink(block, provider, s, rank).Done?
    ensures var fork := ChainLink(block, provider, s, rank).value;
            && Linked(fork) && (fork != [] ==> fork[|fork| - 1] == block)
            && (block.height >= 1 ==> forall i :: 0 <= i < |fork| ==> fork[i].height >= 1)
            && forall i :: 0 <= i < |fork| ==> Honest(fork[i], heightOf)
    decreases rank(block.prev)
  {
    var fork, parent := ChainLink(block, provider, s, rank).value, provider(block.prev);
    if |fork| > 1 {
      LinkHonest(s, parent.value.value, provider, heightOf, rank);
      assert fork == ChainLink(parent.value.value, provider, s, rank).value + [block];
    }
  }

  /** With honest hashes the walk never panics; it fails only if the node does, and if all missing ancestors are served
      it ends at a stored header. */
  lemma {:induction false} LinkHangs<T(!new)>(s: Store<T>, tip: nat, block: Block<T>, provider: Provider<T>,
                                              heightOf: int -> int, rank: int -> nat)
    requires ChainUpTo(s, tip) && HonestStore(s, heightOf)
    requires block.height >= 1 && Honest(block, heightOf) && HonestNode(provider, heightOf) && Ends(provider, rank)
    ensures !ChainLink(block, provider, s, rank).Panicked?
    ensures Fetchable(block, provider, s, rank) ==>
              && ChainLink(block, provider, s, rank).Done? && ChainLink(block, provider, s, rank).value != []
              && Hangs(s, ChainLink(block, provider, s, rank).value)
    decreases rank(block.prev)
  {
    FoundAtHeight(s, tip, block.prev, heightOf);
    var parent := provider(block.prev);
    if !Anchored(s, block) && parent.Ok? && parent.value.Some? {
      LinkHangs(s, tip, parent.value.value, provider, heightOf, rank);
      var older := ChainLink(parent.value.value, provider, s, rank);
      if older.Done? && older.value != [] { assert (older.value + [block])[0] == older.value[0]; }
    }
  }

  // ---- one block ----------------------------------------------------------------------------------------------

  /** A fork that is not anchored leaves a chain broken below it, whatever the node answers. */
  lemma UnanchoredBreaks<T>(s: Store<T>, tip: nat, fork: seq<Block<T>>, heightOf: int -> int)
    requires ChainUpTo(s, tip) && HonestStore(s, heightOf)
    requires fork != [] && Linked(fork) && fork[|fork| - 1].height == tip + 1
    requires fork[0].height >= 1 && Honest(fork[0], heightOf) && !Anchored(s, fork[0])
    ensures !ChainUpTo(Place(s, fork), tip + 1)
  {
    LinkedHeights(fork);
    var below := fork[0].height - 1;
    PlacedAt(s, tip, fork, below);
    PlacedAt(s, tip, fork, below + 1);
    FoundAtHeight(s, tip, fork[0].prev, heightOf);
    assert (s.headers[below].hash, below) in s.byHash;
  }

  /** One block at the next height, and commits that end. The tip moves up by one and the chain holds exactly if the
      block's missing ancestors are served; where a fork reaches back, the chain below it stays. */
  lemma {:induction false} PlacedExactly<T(!new)>(s: Store<T>, tip: nat, block: Block<T>, provider: Provider<T>,
                                                  heightOf: int -> int, rank: int -> nat)
    requires ChainUpTo(s, tip) && HonestStore(s, heightOf) && HonestNode(provider, heightOf)
    requires block.height == tip + 1 && Honest(block, heightOf) && Ends(provider, rank)
    ensures var r := ChainLink(block, provider, s, rank);
            && !r.Panicked? && (r.Failed? ==> !Fetchable(block, provider, s, rank))
            && (r.Done? ==> (ChainUpTo(Place(s, r.value), tip + 1) <==> Fetchable(block, provider, s, rank)))
            && (Fetchable(block, provider, s, rank) ==> LinkedIn(s, tip, block, r.value, heightOf))
  {
    var r := ChainLink(block, provider, s, rank);
    LinkHangs(s, tip, block, provider, heightOf, rank);
    if r.Done? {
      LinkHonest(s, block, provider, heightOf, rank);
      LinkExact(block, provider, s, rank);
      if Fetchable(block, provider, s, rank) {
        HangingLinksIn(s, tip, block, r.value, heightOf);
      } else if r.value == [] {
        assert tip + 1 !in s.headers;
      } else {
        UnanchoredBreaks(s, tip, r.value, heightOf);
      }
    }
  }

  /** The fork ends in the block, which is the new tip, and leaves the chain below the fork as it is. */
  ghost predicate LinkedIn<T>(s: Store<T>, tip: nat, block: Block<T>, fork: seq<Block<T>>, heightOf: int -> int) {
    var z := Place(s, fork);
    && fork != [] && 1 <= fork[0].height <= tip + 1
    && ChainUpTo(z, tip + 1) && HonestStore(z, heightOf) && z.headers[tip + 1] == block
    && forall h :: 1 <= h < fork[0].height ==> h in s.headers && z.headers[h] == s.headers[h]
  }

  lemma HangingLinksIn<T>(s: Store<T>, tip: nat, block: Block<T>, fork: seq<Block<T>>, heightOf: int -> int)
    requires ChainUpTo(s, tip) && HonestStore(s, heightOf) && block.height == tip + 1
    requires fork != [] && Linked(fork) && fork[|fork| - 1] == block && Hangs(s, fork)
    requires forall i :: 0 <= i < |fork| ==> Honest(fork[i], heightOf)
    ensures LinkedIn(s, tip, block, fork, heightOf)
  {
    LinkedHeights(fork);
    PlaceAboveTip(s, tip, fork);
    forall h | 1 <= h <= tip + 1
      ensures Honest(Place(s, fork).headers[h], heightOf)
      ensures h < fork[0].height ==> h in s.headers && Place(s, fork).headers[h] == s.headers[h]
      ensures h == tip + 1 ==> Place(s, fork).headers[h] == block
    {
      PlacedAt(s, tip, fork, h);
    }
  }

  /** A batch that is stored as it comes keeps the chain exactly if it is linked and its first block names the tip. */
  lemma {:induction false} StoredAsItComes<T>(s: Store<T>, tip: nat, blocks: seq<Block<T>>)
    requires ChainUpTo(s, tip) && blocks != []
    requires forall i :: 0 <= i < |blocks| ==> blocks[i].height == tip + 1 + i
    ensures ChainUpTo(StoreAll(s, blocks), tip + |blocks|)
       <==> Linked(blocks) && (tip > 0 ==> blocks[0].prev == s.headers[tip].hash)
  {
    if !Linked(blocks) {
      UnlinkedBatchStored(s, tip, blocks);
    } else if tip > 0 && blocks[0].prev != s.headers[tip].hash {
      StoredAtHeight(s, blocks, tip);
      StoredAtHeight(s, blocks, tip + 1);
    } else {
      LinkedBatchStored(s, tip, blocks);
    }
  }

  lemma {:induction false} UnlinkedBatchStored<T>(s: Store<T>, tip: nat, blocks: seq<Block<T>>)
    requires !Linked(blocks) && forall i :: 0 <= i < |blocks| ==> blocks[i].height == tip + 1 + i
    ensures !ChainUpTo(StoreAll(s, blocks), tip + |blocks|)
  {
    var i :| 0 < i < |blocks|
      && !(blocks[i].height == blocks[i - 1].height + 1 && blocks[i].prev == blocks[i - 1].hash);
    StoredAt(s, tip, blocks, i);
    StoredAt(s, tip, blocks, i - 1);
  }

  lemma {:induction false} LinkedBatchStored<T>(s: Store<T>, tip: nat, blocks: seq<Block<T>>)
    requires ChainUpTo(s, tip) && blocks != []
    requires forall i :: 0 <= i < |blocks| ==> blocks[i].height == tip + 1 + i
    requires Linked(blocks) && (tip > 0 ==> blocks[0].prev == s.headers[tip].hash)
    ensures ChainUpTo(StoreAll(s, blocks), tip + |blocks|)
  {
    var z, top := StoreAll(s, blocks), tip + |blocks|;
    assert Indexed(z) by { StoreAllIndexed(s, blocks); }
    forall h: nat ensures h in z.headers <==> 1 <= h <= top {
      StoredAtHeight(s, blocks, h);
    }
    forall h | 1 <= h <= top
      ensures z.headers[h].height == h && (h > 1 ==> z.headers[h].prev == z.headers[h - 1].hash)
    {
      StoredLink(s, tip, blocks, h);
    }
  }

  lemma {:induction false} StoredLink<T>(s: Store<T>, tip: nat, blocks: seq<Block<T>>, h: nat)
    requires ChainUpTo(s, tip) && blocks != [] && 1 <= h <= tip + |blocks|
    requires forall i :: 0 <= i < |blocks| ==> blocks[i].height == tip + 1 + i
    requires Linked(blocks) && (tip > 0 ==> blocks[0].prev == s.headers[tip].hash)
    ensures var z := StoreAll(s, blocks);
            && h in z.headers && z.headers[h].height == h
            && (h > 1 ==> h - 1 in z.headers && z.headers[h].prev == z.headers[h - 1].hash)
  {
    StoredAtHeight(s, blocks, h);
    if h > 1 { StoredAtHeight(s, blocks, h - 1); }
  }

  lemma {:induction false} StoredAt<T>(s: Store<T>, tip: nat, blocks: seq<Block<T>>, i: nat)
    requires i < |blocks| && forall j :: 0 <= j < |blocks| ==> blocks[j].height == tip + 1 + j
    ensures tip + 1 + i in StoreAll(s, blocks).headers && StoreAll(s, blocks).headers[tip + 1 + i] == blocks[i]
  {
    if i < |blocks| - 1 { StoredAt(s, tip, blocks[..|blocks| - 1], i); }
  }

  // ---- how far the walk goes ----------------------------------------------------------------------------------

  /** A served block is a fork by itself exactly if its parent is stored. */
  lemma {:induction false} AloneExactly<T(!new)>(s: Store<T>, block: Block<T>, provider: Provider<T>, rank: int -> nat)
    requires Ends(provider, rank) && ChainLink(block, provider, s, rank).Done? && Fetchable(block, provider, s, rank)
    ensures |ChainLink(block, provider, s, rank).value| == 1 <==> Anchored(s, block)
    ensures Anchored(s, block) ==> ChainLink(block, provider, s, rank).value == [block]
  {
    if !Anchored(s, block) {
      var parent := provider(block.prev).value.value;
      LinkExact(parent, provider, s, rank);
    }
  }

  /** The parent of a block at the next height is stored exactly if it is the header at the tip. */
  lemma AnchoredAtTip<T>(s: Store<T>, tip: nat, block: Block<T>, heightOf: int -> int)
    requires ChainUpTo(s, tip) && HonestStore(s, heightOf) && block.height == tip + 1 && Honest(block, heightOf)
    ensures Anchored(s, block) <==> (tip > 0 ==> block.prev == s.headers[tip].hash)
  {
    FoundAtHeight(s, tip, block.prev, heightOf);
    if tip > 0 && block.prev == s.headers[tip].hash { assert (block.prev, tip) in s.byHash; }
  }
}
