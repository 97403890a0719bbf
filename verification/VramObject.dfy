// A guest-pool object from creation to the reply that ends it: virtio_gpu_guest_pool_create, its
// failure paths, and the RESOURCE_UNREF callback that gives the blocks back.
module VramObject {
  import opened Arith
  import opened Blocks
  import opened BlockSizing
  import opened BlockWalks
  import opened Errno
  import opened GuestPool
  import PoolMachine

  // VIRTIO 1.2 section 5.7.6.7, response types.
  const RESP_OK_NODATA := 0x1100
  const RESP_ERR_UNSPEC := 0x1200
  const RESP_ERR_INVALID_RESOURCE_ID := 0x1203

  // Which of the allocations on the way to an object fail.
  datatype Faults = Faults(noObject: bool, noOffset: int, noId: int, noEntries: bool)

  class Object {
    const nodeSize: nat
    var blocks: seq<Block>
    var owned: bool

    constructor (nodeSize: nat, blocks: seq<Block>)
      ensures this.nodeSize == nodeSize && this.blocks == blocks && owned
    {
      this.nodeSize, this.blocks, this.owned := nodeSize, blocks, true;
    }

    // While the object owns its blocks they are allocated.
    ghost predicate Holds(pool: GuestPool.Pool) reads this, pool.mm {
      owned ==> BlockSet(blocks) <= pool.mm.live
    }

    // Give the blocks back, once.
    method Release(pool: GuestPool.Pool) returns (ghost retry: bool, ghost es: seq<PoolMachine.Event>)
      requires pool.Valid() && Holds(pool)
      modifies this`owned, pool, pool.mm, pool.host
      ensures pool.Valid() && !owned && Holds(pool) && pool.ready == old(pool.ready)
      ensures pool.mm.live == if old(owned) && pool.ready then old(pool.mm.live) - BlockSet(blocks)
                              else old(pool.mm.live)
      ensures pool.backed <= old(pool.backed)
      ensures GaveBack(old(pool.World()), es, pool.World(), retry, blocks, old(owned) && pool.ready)
    {
      retry, es := false, [];
      if !owned {
        return;
      }
      owned := false;
      var again;
      again, es := pool.Free(blocks);
      retry := again;
    }

    // The reply to RESOURCE_UNREF.
    method UnrefReply(pool: GuestPool.Pool, respType: int)
      returns (ghost retry: bool, ghost es: seq<PoolMachine.Event>)
      requires pool.Valid() && Holds(pool)
      modifies this`owned, pool, pool.mm, pool.host
      ensures pool.Valid() && Holds(pool) && pool.ready == old(pool.ready)
      ensures var dropped := respType == RESP_OK_NODATA || respType == RESP_ERR_INVALID_RESOURCE_ID;
              && owned == (old(owned) && !dropped)
              && pool.mm.live == if old(owned) && dropped && pool.ready then old(pool.mm.live) - BlockSet(blocks)
                                 else old(pool.mm.live)
      ensures var dropped := respType == RESP_OK_NODATA || respType == RESP_ERR_INVALID_RESOURCE_ID;
              GaveBack(old(pool.World()), es, pool.World(), retry, blocks, old(owned) && dropped && pool.ready)
    {
      retry, es := false, [];
      if respType == RESP_OK_NODATA || respType == RESP_ERR_INVALID_RESOURCE_ID {
        retry, es := Release(pool);
      }
    }

    // A user mapping of any part of the object is complete: it never runs out of blocks.
    method Map(pool: GuestPool.Pool, start: nat, length: nat, pgoff: nat) returns (r: MmapResult)
      requires Paged(blocks) && nodeSize <= SumLen(blocks) && pool.base != 0 && pool.base % PAGE == 0
      requires length % PAGE == 0
      ensures r.Mapped? <==>
                (pgoff * PAGE) % U64 + length < U64 && (pgoff * PAGE) % U64 + length <= nodeSize
      ensures r.Mapped? ==> Tiles(r.runs, start, start + length)
      ensures r.Mapped? ==> forall c | c in r.runs :: Follows(c, pool.base, blocks, start, (pgoff * PAGE) % U64)
    {
      r := Mmap(pool.base, blocks, nodeSize, start, length, pgoff);
    }
  }

  // The blocks went back in one step, after which the pool shrank as far as it could; or nothing happened.
  ghost predicate GaveBack(w: PoolMachine.World, es: seq<PoolMachine.Event>, v: PoolMachine.World, retry: bool,
                           blocks: seq<Block>, given: bool)
  {
    if given && blocks != [] then
      es != [] && es[0] == PoolMachine.Give(blocks)
      && GuestPool.Reclaimed(PoolMachine.Apply(w, PoolMachine.Give(blocks)), es[1..], v, retry)
    else es == [] && !retry && v == w
  }

  // Why n blocks do not become an object, 0 if they do.
  function Refusal(faults: Faults, maxNents: int, n: nat): int {
    if faults.noObject then ENOMEM
    else if faults.noOffset != 0 then faults.noOffset
    else if faults.noId != 0 then faults.noId
    else if maxNents > 0 && n > maxNents then ENOSPC
    else if faults.noEntries then ENOMEM
    else 0
  }

  // Build an object of the given size with its mem-entries, or give every block back.
  method Create(pool: GuestPool.Pool, size0: nat, maxNents: int, faults: Faults)
    returns (ret: int, obj: Object?, ents: array<Entry>)
    requires pool.Valid() && size0 <= U64 - PAGE
    modifies pool, pool.mm, pool.host
    ensures pool.Valid() && pool.ready == old(pool.ready)
    ensures ret != 0 ==> obj == null && pool.mm.live == old(pool.mm.live)
    ensures ret == 0 ==> obj != null && fresh(obj) && obj.owned && obj.Holds(pool)
    ensures ret == 0 ==> pool.mm.live == old(pool.mm.live) + BlockSet(obj.blocks)
    ensures ret == 0 ==> Fresh(old(pool.mm.live), obj.blocks)
    ensures ret == 0 ==> Paged(obj.blocks) && obj.nodeSize == AlignUp64(size0, PAGE)
    ensures ret == 0 ==> obj.nodeSize <= SumLen(obj.blocks)
    ensures ret == 0 && maxNents > 0 ==> |obj.blocks| <= maxNents
    ensures ret == 0 ==> !faults.noObject && faults.noOffset == faults.noId == 0 && !faults.noEntries
    ensures ret in {0, ENOMEM, ENOSPC, faults.noOffset, faults.noId}
    // With nothing else in the way, an object is made exactly when the pool can hold it.
    ensures var s := AlignUp64(size0, PAGE);
            faults == Faults(false, 0, 0, false) && pool.host.generous && BoundHolds(s, maxNents) ==>
              (ret == 0 <==> old(pool.ready) && s > 0 && CanHold(old(pool.View()), old(pool.mm.live), s, maxNents))
    ensures ret == 0 ==> ents.Length == |obj.blocks| && ents[..] == EntriesOf(pool.base, obj.blocks)
  {
    obj := null;
    ents := new Entry[0];
    var size := AlignUp64(size0, PAGE);
    AlignUpExact(size0, PAGE);
    var blocks;
    ret, blocks := CarveBlocks(pool, size, maxNents);
    if ret != 0 {
      return ENOMEM, null, ents;
    }
    ret := Refusal(faults, maxNents, |blocks|);
    if ret != 0 {
      var retry;
      ghost var given;
      retry, given := pool.Free(blocks);
      return;
    }
    ents := BuildEntries(pool.base, blocks);
    EntriesPointwise(pool.base, blocks);
    assert ents[..] == EntriesOf(pool.base, blocks);
    obj := new Object(size, blocks);
  }

  // What an object of whole pages needs of the pool.
  method CarveBlocks(pool: GuestPool.Pool, size: nat, maxNents: int) returns (ret: int, blocks: seq<Block>)
    requires pool.Valid() && size <= U64 - PAGE && size % PAGE == 0
    modifies pool, pool.mm, pool.host
    ensures pool.Valid() && pool.ready == old(pool.ready)
    ensures ret != 0 ==> pool.mm.live == old(pool.mm.live)
    ensures ret == 0 ==>
              && pool.ready && pool.mm.live == old(pool.mm.live) + BlockSet(blocks)
              && pool.mm.live - BlockSet(blocks) == old(pool.mm.live)
              && Fresh(old(pool.mm.live), blocks) && Paged(blocks) && size <= SumLen(blocks)
              && (BoundHolds(size, maxNents) && maxNents > 0 ==> |blocks| <= maxNents)
    ensures pool.host.generous ==>
              (ret == 0 <==>
               old(pool.ready) && size > 0 && CanHold(old(pool.View()), old(pool.mm.live), size, maxNents))
  {
    ghost var live := pool.mm.live;
    var retry;
    ghost var grown, given;
    ret, blocks, retry, grown, given := pool.Alloc(size, maxNents);
    if ret == 0 {
      AlreadyAligned(size);
      WhatWasCarved(live, blocks, pool.backed, size, maxNents);
      WithinBound(blocks, size, maxNents);
    }
  }

  // The bound on entries rules no block list out.
  predicate BoundHolds(size: nat, maxNents: int) {
    maxNents <= 0 || (Defined(size, maxNents) && (maxNents >= 2 || IsPow2(size)))
  }

  predicate CanHold(p: PoolMachine.Pool, live: set<Block>, size0: nat, maxNents: int)
    requires p.prealloc <= p.size && size0 > 0
  {
    var (r, m) := Asked(size0, maxNents); Fits(p, live, r, m)
  }

  lemma WithinBound(bs: seq<Block>, size: nat, maxNents: int)
    requires 0 < size && SumLen(bs) == Request(size, maxNents)
    requires forall b | b in bs :: MinBlock(size, maxNents) <= b.len
    ensures BoundHolds(size, maxNents) && maxNents > 0 ==> |bs| <= maxNents
  {
    if BoundHolds(size, maxNents) && maxNents > 0 {
      EntryBoundHoldsIff(size, maxNents);
      assert Meets(bs, size, maxNents);
    }
  }

  lemma WhatWasCarved(live: set<Block>, bs: seq<Block>, backed: nat, size: nat, maxNents: int)
    requires 0 < size < U64 && size % PAGE == 0 && MinBlock(size, maxNents) > 0
    requires Carved(live, bs, 0, backed, Request(size, maxNents), MinBlock(size, maxNents))
    requires Request(size, maxNents) > 0
    ensures Paged(bs) && size <= SumLen(bs) && Fresh(live, bs) && (live + BlockSet(bs)) - BlockSet(bs) == live
  {
    var m := MinBlock(size, maxNents);
    RequestInBlocks(size, maxNents);
    ProbeUndone(live, bs, 0, backed, Request(size, maxNents), m);
    PageIsPow2();
    CarvedIsPaged(live, bs, 0, backed, Request(size, maxNents), m);
    LargeEnough(size);
    RequestShape(size, maxNents);
  }

  lemma AlreadyAligned(size: nat)
    requires size % PAGE == 0 && size + PAGE <= U64
    ensures AlignUp64(size, PAGE) == size
  {
    AlignUpExact(size, PAGE);
    DividesSum(AlignUp64(size, PAGE), size, PAGE);
  }

  lemma LargeEnough(size: nat)
    requires size > 0 && size % PAGE == 0
    ensures size >= PAGE
  {}
}
