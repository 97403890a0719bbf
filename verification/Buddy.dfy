// The contract of the kernel's drm_buddy allocator, which is not part of the repository. The method
// bodies are one allocator that meets the contract; callers rely on the contract alone.
module Buddy {
  import opened Arith
  import opened Blocks
  import opened Errno

  datatype Result = Got(blocks: seq<Block>) | Failed(err: int)

  // The arguments drm_buddy accepts; anything else is -EINVAL.
  predicate GoodRequest(mmSize: nat, lo: nat, hi: nat, size: nat, m: nat) {
    && PAGE <= size && PAGE <= m && IsPow2(m)
    && lo % PAGE == 0 && hi % PAGE == 0 && size % m == 0
    && lo <= hi <= mmSize && lo + size <= mmSize
    && (lo + size == hi ==> lo % m == 0 && hi % m == 0)
  }

  // Allocated blocks are non-empty, inside the window, and disjoint.
  ghost predicate LaidOut(live: set<Block>, size: nat) {
    && (forall b | b in live :: 0 < b.len && b.End() <= size)
    && (forall a, b | a in live && b in live && a != b :: Apart(a, b))
  }

  class Allocator {
    const size: nat
    var live: set<Block>

    ghost predicate Valid() reads this { LaidOut(live, size) }

    constructor (size: nat)
      ensures Valid() && this.size == size && live == {}
    {
      this.size := size;
      live := {};
    }

    method AllocBlocks(lo: nat, hi: nat, request: nat, m: nat) returns (r: Result)
      requires Valid()
      modifies this
      ensures Valid()
      ensures r.Failed? ==> live == old(live) && r.err < 0
      ensures !GoodRequest(size, lo, hi, request, m) ==> r == Failed(EINVAL)
      ensures GoodRequest(size, lo, hi, request, m) ==>
                if request <= Capacity(old(live), lo, hi, m) then r.Got? else r == Failed(ENOSPC)
      ensures r.Got? ==> Carved(old(live), r.blocks, lo, hi, request, m)
      ensures r.Got? ==> live == old(live) + BlockSet(r.blocks)
    {
      if !GoodRequest(size, lo, hi, request, m) {
        return Failed(EINVAL);
      }
      r := Carve(lo, hi, request, m);
    }

    method Carve(lo: nat, hi: nat, request: nat, m: nat) returns (r: Result)
      requires Valid() && m > 0 && request % m == 0 && IsPow2(m) && hi <= size
      modifies this
      ensures Valid()
      ensures if request <= Capacity(old(live), lo, hi, m) then r.Got? else r == Failed(ENOSPC)
      ensures r.Failed? ==> live == old(live)
      ensures r.Got? ==> Carved(old(live), r.blocks, lo, hi, request, m)
      ensures r.Got? ==> live == old(live) + BlockSet(r.blocks)
    {
      var want := FloorDiv(request, m);
      var got := Scan(lo, CeilDiv(lo, m), FloorDiv(hi, m), want, m);
      ScanDone(live, got, lo, CeilDiv(lo, m), FloorDiv(hi, m), m, want);
      EnoughChunks(request, want, FreeChunks(live, lo, hi, m), m);
      if |got| < want {
        return Failed(ENOSPC);
      }
      AllInside(live, got, lo, hi, request, m, want);
      StillLaidOut(live, got, lo, hi, request, m, size);
      live := live + BlockSet(got);
      r := Got(got);
    }

    // Collect free aligned chunks from number first on, until want of them or the end is reached.
    method Scan(lo: nat, first: nat, last: nat, want: nat, m: nat) returns (got: seq<Block>)
      requires Valid() && m > 0 && first == CeilDiv(lo, m)
      ensures |got| <= want
      ensures exists k: nat :: Collected(live, got, lo, first, k, last, m, want)
    {
      var k := first;
      got := [];
      while k < last && |got| < want
        invariant first <= k && (k <= last || k == first) && |got| <= want
        invariant Scanned(live, got, lo, k, m)
        decreases last - k
      {
        ScanStep(live, got, lo, k, m);
        if ChunkFree(live, k, m) {
          got := got + [Block(k * m, m)];
        }
        k := k + 1;
      }
      assert Collected(live, got, lo, first, k, last, m, want);
    }

    method FreeBlocks(blocks: seq<Block>)
      requires Valid()
      modifies this
      ensures Valid() && live == old(live) - BlockSet(blocks)
    {
      live := live - BlockSet(blocks);
    }
  }

  lemma StillLaidOut(live: set<Block>, bs: seq<Block>, lo: nat, hi: nat, request: nat, m: nat, size: nat)
    requires m > 0 && LaidOut(live, size) && Carved(live, bs, lo, hi, request, m) && hi <= size
    ensures LaidOut(live + BlockSet(bs), size)
  {
    forall a, b | a in live + BlockSet(bs) && b in live + BlockSet(bs) && a != b
      ensures Apart(a, b)
    {
      if a !in live && b !in live {
        var i, j :| 0 <= i < |bs| && 0 <= j < |bs| && bs[i] == a && bs[j] == b;
        assert Apart(bs[if i < j then i else j], bs[if i < j then j else i]);
      }
    }
  }

  // The chunks below number k that are free have been collected, in address order.
  ghost predicate Scanned(live: set<Block>, got: seq<Block>, lo: nat, k: nat, m: nat)
    requires m > 0
  {
    && |got| == FreeCount(live, CeilDiv(lo, m), k, m)
    && SumLen(got) == |got| * m
    && Fresh(live, got)
    && forall b | b in got :: lo <= b.off && b.End() <= k * m && b.len == m && b.off % m == 0
  }

  lemma ScanStep(live: set<Block>, got: seq<Block>, lo: nat, k: nat, m: nat)
    requires m > 0 && CeilDiv(lo, m) <= k && Scanned(live, got, lo, k, m)
    ensures Scanned(live, if ChunkFree(live, k, m) then got + [Block(k * m, m)] else got, lo, k + 1, m)
  {
    ScanArith(lo, k, |got|, m);
    if ChunkFree(live, k, m) {
      SumLenAppend(got, Block(k * m, m));
      ChunkIsFresh(live, got, k, m);
    }
  }

  // A free chunk above everything collected.
  lemma ChunkIsFresh(live: set<Block>, got: seq<Block>, k: nat, m: nat)
    requires Fresh(live, got) && ChunkFree(live, k, m) && forall b | b in got :: b.End() <= k * m
    ensures Fresh(live, got + [Block(k * m, m)])
  {}

  lemma ScanArith(lo: nat, k: nat, n: nat, m: nat)
    requires m > 0 && CeilDiv(lo, m) <= k
    ensures lo <= k * m && (k * m) % m == 0 && (k + 1) * m == k * m + m && (n + 1) * m == n * m + m
  {
    CeilAbove(lo, m);
    MulMono(CeilDiv(lo, m), k, m);
    DividesMul(k, m);
  }

  // The scan stopped at chunk k: it has enough, or it reached the end of the range.
  ghost predicate Collected(live: set<Block>, got: seq<Block>, lo: nat, first: nat, k: nat, last: nat, m: nat,
                            want: nat)
    requires m > 0
  {
    && first <= k && (k <= last || k == first)
    && Scanned(live, got, lo, k, m)
    && (k >= last || |got| == want)
  }

  lemma ScanDone(live: set<Block>, got: seq<Block>, lo: nat, first: nat, last: nat, m: nat, want: nat)
    requires m > 0 && |got| <= want && first == CeilDiv(lo, m)
    requires exists k: nat :: Collected(live, got, lo, first, k, last, m, want)
    ensures want <= FreeCount(live, first, last, m) <==> |got| == want
    ensures exists k: nat :: Scanned(live, got, lo, k, m) && (k <= last || got == [])
  {
    var k: nat :| Collected(live, got, lo, first, k, last, m, want);
    if k <= last {
      FreeCountGrows(live, first, k, last, m);
    }
  }

  lemma EnoughChunks(request: nat, want: nat, n: nat, m: nat)
    requires m > 0 && request % m == 0 && want == FloorDiv(request, m)
    ensures request <= n * m <==> want <= n
  {
    ExactDiv(request, m);
    if want <= n { MulMono(want, n, m); }
    MulStrict(want, n, m);
  }

  lemma AllInside(live: set<Block>, got: seq<Block>, lo: nat, hi: nat, request: nat, m: nat, want: nat)
    requires m > 0 && IsPow2(m) && request % m == 0 && want == FloorDiv(request, m) && |got| == want
    requires exists k: nat :: Scanned(live, got, lo, k, m) && (k <= FloorDiv(hi, m) || got == [])
    ensures Carved(live, got, lo, hi, request, m)
  {
    ExactDiv(request, m);
    var k: nat :| Scanned(live, got, lo, k, m) && (k <= FloorDiv(hi, m) || got == []);
    if got != [] {
      DivFloor(hi, m);
      MulMono(k, FloorDiv(hi, m), m);
    }
  }
}
