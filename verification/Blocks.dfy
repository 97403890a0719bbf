// Blocks handed out by the page allocator, and how much of a range is still free.
module Blocks {
  import opened Arith

  datatype Block = Block(off: nat, len: nat) {
    function End(): nat { off + len }
  }

  predicate Apart(a: Block, b: Block) {
    a.End() <= b.off || b.End() <= a.off
  }

  function SumLen(bs: seq<Block>): nat {
    if bs == [] then 0 else bs[0].len + SumLen(bs[1..])
  }

  predicate RangeFree(live: set<Block>, lo: nat, hi: nat) {
    forall b | b in live :: b.End() <= lo || hi <= b.off
  }

  predicate ChunkFree(live: set<Block>, k: nat, m: nat) {
    RangeFree(live, k * m, k * m + m)
  }

  // How many of the aligned m-byte chunks numbered i..j-1 touch no live block.
  function FreeCount(live: set<Block>, i: nat, j: nat, m: nat): nat
    decreases j
  {
    if j <= i then 0
    else FreeCount(live, i, j - 1, m) + (if ChunkFree(live, j - 1, m) then 1 else 0)
  }

  function FreeChunks(live: set<Block>, lo: nat, hi: nat, m: nat): nat
    requires m > 0
  {
    FreeCount(live, CeilDiv(lo, m), FloorDiv(hi, m), m)
  }

  // Bytes of [lo, hi) that a request with minimum block size m can draw on.
  function Capacity(live: set<Block>, lo: nat, hi: nat, m: nat): nat
    requires m > 0
  {
    FreeChunks(live, lo, hi, m) * m
  }

  // No two blocks of the list overlap, and none has a live block under it.
  ghost predicate Fresh(live: set<Block>, bs: seq<Block>) {
    && (forall i, j | 0 <= i < j < |bs| :: Apart(bs[i], bs[j]))
    && (forall i | 0 <= i < |bs| :: RangeFree(live, bs[i].off, bs[i].End()))
  }

  // What a successful allocation hands out.
  ghost predicate Carved(live: set<Block>, bs: seq<Block>, lo: nat, hi: nat, size: nat, m: nat)
    requires m > 0
  {
    && Fresh(live, bs)
    && SumLen(bs) == size
    && forall b | b in bs :: lo <= b.off && b.End() <= hi && m <= b.len && IsPow2(b.len) && b.off % m == 0
  }

  function BlockSet(bs: seq<Block>): set<Block> {
    set b | b in bs
  }

  lemma {:induction false} SumLenAppend(bs: seq<Block>, b: Block)
    ensures SumLen(bs + [b]) == SumLen(bs) + b.len
  {
    if bs != [] {
      SumLenAppend(bs[1..], b);
      assert (bs + [b])[1..] == bs[1..] + [b];
    }
  }

  // Growing the range never loses free chunks.
  lemma {:induction false} FreeCountGrows(live: set<Block>, i: nat, j: nat, j': nat, m: nat)
    requires j <= j'
    ensures FreeCount(live, i, j, m) <= FreeCount(live, i, j', m)
    decreases j'
  {
    if j < j' { FreeCountGrows(live, i, j, j' - 1, m); }
  }

  lemma CapacityGrows(live: set<Block>, hi: nat, hi': nat, m: nat)
    requires m > 0 && hi <= hi'
    ensures Capacity(live, 0, hi, m) <= Capacity(live, 0, hi', m)
  {
    DivMono(hi, hi', m);
    FreeCountGrows(live, CeilDiv(0, m), FloorDiv(hi, m), FloorDiv(hi', m), m);
    MulMono(FreeChunks(live, 0, hi, m), FreeChunks(live, 0, hi', m), m);
  }

  // There are never more free chunks than chunks.
  lemma {:induction false} FreeCountBound(live: set<Block>, i: nat, j: nat, m: nat)
    ensures FreeCount(live, i, j, m) <= (if i <= j then j - i else 0)
    decreases j
  {
    if i < j { FreeCountBound(live, i, j - 1, m); }
  }

  // A request never exceeds the range it may draw on.
  lemma CapacityBound(live: set<Block>, hi: nat, m: nat)
    requires m > 0
    ensures Capacity(live, 0, hi, m) <= hi
  {
    FreeCountBound(live, 0, FloorDiv(hi, m), m);
    DivModUnique(m - 1, m, 0, m - 1);
    MulMono(FreeCount(live, 0, FloorDiv(hi, m), m), FloorDiv(hi, m), m);
    DivFloor(hi, m);
  }

  // An exact one-chunk range has room for one chunk when it is free, and for none otherwise.
  lemma ExactChunk(live: set<Block>, off: nat, m: nat)
    requires m > 0 && off % m == 0
    ensures Capacity(live, off, off + m, m) == if RangeFree(live, off, off + m) then m else 0
  {
    var k := off / m;
    assert off == k * m;
    DivModUnique(off + m - 1, m, k, m - 1);
    assert off + m == (k + 1) * m;
    DivModUnique(off + m, m, k + 1, 0);
    assert FreeCount(live, k, k, m) == 0;
    assert FreeCount(live, k, k + 1, m) == if ChunkFree(live, k, m) then 1 else 0;
  }
}
