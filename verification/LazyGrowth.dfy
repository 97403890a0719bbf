// What lazy growth is for: to a caller, a pool grown a step at a time is as good as one that was
// backed in full from the start.
module LazyGrowth {
  import opened Arith
  import opened Blocks
  import opened BlockSizing
  import opened GuestPool
  import opened PoolHost
  import opened PoolMachine

  // The same window, all of it shared at boot.
  function FullyBacked(p: PoolMachine.Pool): PoolMachine.Pool {
    PoolMachine.Pool(p.size, p.size, 0, 0, 0)
  }

  ghost predicate Growable(p: PoolMachine.Pool) {
    Shape(p) && p.step == p.unit != 0 && GoodGeometry(p.size, p.prealloc, p.unit)
  }

  // Growing reaches the end of the window exactly when whole steps fill it.
  lemma ReachesEndIff(p: PoolMachine.Pool)
    requires Growable(p)
    ensures Reach(p) == p.size <==> (p.size - p.prealloc) % p.unit == 0
  {
    var d := p.size - p.prealloc;
    var k := FloorDiv(d, p.unit);
    OffIsAffine(p, k);
    assert d == k * p.unit + d % p.unit by { DivFloor(d, p.unit); }
  }

  // For a power-of-two step the mask tests at initialisation make it so.
  lemma Pow2StepFillsWindow(p: PoolMachine.Pool)
    requires Growable(p) && IsPow2(p.unit)
    ensures Reach(p) == p.size && p.prealloc % p.unit == 0
  {
    AlignedIsDivides(p.size, p.unit);
    AlignedIsDivides(p.prealloc, p.unit);
    DividesSum(p.size, p.prealloc, p.unit);
    ReachesEndIff(p);
  }

  // Requests as the pool makes them: whole blocks of a power of two that is at least a page.
  predicate Asks(request: nat, m: nat) {
    PAGE <= m && IsPow2(m) && request % m == 0
  }

  // The growing pool serves every request exactly as the fully backed one would, whatever is live, if
  // and only if whole steps fill the window. Then fragmentation of the current prefix costs nothing.
  lemma RefinesFullyBackedIff(p: PoolMachine.Pool)
    requires Growable(p) && p.size % PAGE == 0
    ensures (forall live, request, m | Asks(request, m) ::
               Fits(p, live, request, m) <==> Fits(FullyBacked(p), live, request, m))
            <==> (p.size - p.prealloc) % p.unit == 0
  {
    ReachesEndIff(p);
    ReachIsLimit(p);
    if Reach(p) < p.size {
      PageIsPow2();
      assert Asks(p.size, PAGE);
      WholeWindowTells(p);
    }
  }

  // The whole window, in pages, is what a pool that stops short cannot serve.
  lemma WholeWindowTells(p: PoolMachine.Pool)
    requires Growable(p) && p.size % PAGE == 0 && Reach(p) < p.size
    ensures !Fits(p, {}, p.size, PAGE) && Fits(FullyBacked(p), {}, p.size, PAGE)
  {
    CapacityBound({}, Reach(p), PAGE);
    EmptyIsAllFree(FloorDiv(p.size, PAGE), PAGE);
    ExactDiv(p.size, PAGE);
  }

  // For a power-of-two step the tests at initialisation see to that.
  lemma GrowingRefinesFullyBacked(p: PoolMachine.Pool, live: set<Block>, request: nat, m: nat)
    requires Growable(p) && IsPow2(p.unit) && m > 0
    ensures Fits(p, live, request, m) <==> Fits(FullyBacked(p), live, request, m)
  {
    Pow2StepFillsWindow(p);
  }

  // In general the growing pool serves no more than the fully backed one.
  lemma GrowingServesNoMore(p: PoolMachine.Pool, live: set<Block>, request: nat, m: nat)
    requires Growable(p) && m > 0 && Fits(p, live, request, m)
    ensures Fits(FullyBacked(p), live, request, m)
  {
    AtReach(p);
    CapacityGrows(live, Reach(p), p.size, m);
  }

  // A 6 MiB step passes the mask tests for an 8 MiB window although it does not divide it. The last
  // 2 MiB can then never be reached, and a request the window has room for is refused.
  lemma OddStepLosesTheTail()
    ensures var p := PoolMachine.Pool(4 * SZ_2M, 0, 3 * SZ_2M, 3 * SZ_2M, 0);
            && Growable(p) && Reach(p) == 3 * SZ_2M < p.size
            && !Fits(p, {}, 4 * SZ_2M, SZ_2M) && Fits(FullyBacked(p), {}, 4 * SZ_2M, SZ_2M)
  {
    var p := PoolMachine.Pool(4 * SZ_2M, 0, 3 * SZ_2M, 3 * SZ_2M, 0);
    SixIntoEight();
    assert Growable(p);
    OddReach(p);
    CapacityBound({}, 3 * SZ_2M, SZ_2M);
    EmptyIsAllFree(4, SZ_2M);
    assert FloorDiv(4 * SZ_2M, SZ_2M) == 4 && CeilDiv(0, SZ_2M) == 0;
  }

  lemma OddReach(p: PoolMachine.Pool)
    requires p.size == 4 * SZ_2M && p.prealloc == 0 && p.unit == p.step == 3 * SZ_2M
    ensures Reach(p) == 3 * SZ_2M
  {
    OffIsAffine(p, 1);
    assert FloorDiv(4 * SZ_2M, 3 * SZ_2M) == 1;
  }

  lemma {:induction false} TripleIsNoPow2(n: nat)
    requires n > 0
    ensures !IsPow2(3 * n)
  {
    if n % 2 == 0 { TripleIsNoPow2(n / 2); }
  }

  // That request, step by step, on an empty pool and a host that grants everything: growing gets to
  // 6 MiB and fails, and reclaiming then gives nothing back, so the boundary stays a step higher.
  method OddStepKeepsWhatItGrew() returns (ret: int, before: nat, after: nat)
    ensures ret != 0 && before == 0 && after == 3 * SZ_2M
  {
    SixIntoEight();
    TripleIsNoPow2(SZ_2M);
    assert AlignDown(4 * SZ_2M, PAGE) == 4 * SZ_2M;
    var host := new HostPool(0, 3 * SZ_2M, 4 * SZ_2M, true, {});
    var pool := new GuestPool.Pool(PAGE, 4 * SZ_2M, 0, 3 * SZ_2M, host);
    before := pool.backed;
    ghost var es;
    ret, es := pool.GrowToFit(4 * SZ_2M, PAGE);
    OddReach(pool.View());
    AtReach(pool.View());
    if es != [] { assert es[|es| - 1] in es; }
    var retry;
    retry, es := pool.Reclaim();
    after := pool.backed;
  }

  lemma SixIntoEight()
    ensures IsAligned(4 * SZ_2M, 3 * SZ_2M) && IsAligned(0, 3 * SZ_2M) && IsAligned(0, PAGE)
  {
    assert And(4, 2) == 0 by { assert And(1, 0) == 0 && And(2, 1) == 0; }
    Shift7(4, 2);
    Shift7(512, 383);
    Shift7(65536, 49151);
  }

  lemma Shift7(x: nat, y: nat)
    requires And(x, y) == 0
    ensures And(128 * x, 128 * y + 127) == 0
  {
    MaskSplit(x, y, 7);
    SevenBits(x, y);
    ZeroShl(7);
  }

  lemma SevenBits(x: nat, y: nat)
    ensures Shl(x, 7) == 128 * x && Ones(y, 7) == 128 * y + 127
  {
    assert Shl(x, 1) == 2 * x && Ones(y, 1) == 2 * y + 1;
    assert Shl(x, 3) == 8 * x && Ones(y, 3) == 8 * y + 7;
    assert Shl(x, 5) == 32 * x && Ones(y, 5) == 32 * y + 31;
  }

  // x with k zero bits, and y with k one bits, below it.
  function Shl(x: nat, k: nat): nat { if k == 0 then x else 2 * Shl(x, k - 1) }

  function Ones(y: nat, k: nat): nat { if k == 0 then y else 2 * Ones(y, k - 1) + 1 }

  lemma {:induction false} MaskSplit(x: nat, y: nat, k: nat)
    ensures And(Shl(x, k), Ones(y, k)) == Shl(And(x, y), k)
  {
    if k > 0 {
      MaskSplit(x, y, k - 1);
      MaskDouble(Shl(x, k - 1), Ones(y, k - 1));
    }
  }

  lemma MaskDouble(a: nat, b: nat)
    ensures And(2 * a, 2 * b + 1) == 2 * And(a, b)
  {}

  lemma {:induction false} ZeroShl(k: nat)
    ensures Shl(0, k) == 0
  {
    if k > 0 { ZeroShl(k - 1); }
  }

  lemma {:induction false} EmptyIsAllFree(j: nat, m: nat)
    requires m > 0
    ensures FreeCount({}, 0, j, m) == j
  {
    if j > 0 { EmptyIsAllFree(j - 1, m); }
  }
}
