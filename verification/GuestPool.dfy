// The guest-alloc pool of virtio_gpu/virtgpu_vram.c: a page allocator over a window of which only the
// prefix [0, backed) may be touched. Every method runs under guest_pool_lock; each one is shown to be
// a fairly answered run of PoolMachine, handed back in the ghost result es.
module GuestPool {
  import opened Arith
  import opened Blocks
  import opened Buddy
  import opened BlockSizing
  import opened Errno
  import opened PoolHost
  import opened PoolMachine

  // The checks of pool initialisation on a size already trimmed to whole pages.
  predicate GoodGeometry(size: nat, prealloc: nat, step: nat) {
    && prealloc <= size && IsAligned(prealloc, PAGE)
    && (step != 0 ==> step % SZ_2M == 0 && IsAligned(size, step) && IsAligned(prealloc, step))
    && (step == 0 ==> prealloc == size)
  }

  // Some prefix the boundary can reach has room for the request.
  predicate Fits(p: PoolMachine.Pool, live: set<Block>, request: nat, m: nat)
    requires p.prealloc <= p.size && m > 0
  {
    0 < request <= Capacity(live, 0, Reach(p), m)
  }

  class Pool {
    const base: nat
    const size: nat
    const prealloc: nat
    const mm: Allocator
    const host: HostPool
    const initRet: int
    var backed: nat
    var step: nat
    var ready: bool
    ghost const unit: nat
    ghost var n: nat

    ghost function View(): PoolMachine.Pool reads this {
      PoolMachine.Pool(size, prealloc, unit, step, n)
    }

    ghost function World(): World reads this, mm, host {
      PoolMachine.World(View(), mm.live, host.st)
    }

    ghost predicate Valid() reads this, mm, host {
      ready ==>
        && mm.Valid() && host.Valid() && mm.size == size
        && host.floor == prealloc && host.unit == unit && host.window == size
        && size % PAGE == 0 && prealloc % PAGE == 0 && unit % PAGE == 0 && prealloc <= size
        && (IsPow2(unit) ==> prealloc % unit == 0)
        && backed == View().Backed()
        && Inv(World())
    }

    // The probe-time initialisation. A pool that is absent or badly described is never ready.
    constructor (base: nat, dtSize: nat, prealloc: nat, step: nat, host: HostPool)
      requires host.Valid()
      requires host.floor == prealloc && host.unit == step && host.window == AlignDown(dtSize, PAGE)
      ensures Valid() && fresh(mm) && this.host == host
      ensures this.base == base && size == AlignDown(dtSize, PAGE) && this.prealloc == prealloc
      ensures ready <==> base != 0 && size != 0 && GoodGeometry(size, prealloc, step)
      ensures initRet == if base != 0 && size != 0 && !ready then EINVAL else 0
      ensures ready ==> mm.live == {} && backed == prealloc && this.step == unit == step && n == 0
    {
      this.base, this.size, this.prealloc, this.host := base, AlignDown(dtSize, PAGE), prealloc, host;
      this.backed, this.step := prealloc, step;
      this.unit, this.n := step, 0;
      ready := base != 0 && AlignDown(dtSize, PAGE) != 0 && GoodGeometry(AlignDown(dtSize, PAGE), prealloc, step);
      var bad := base != 0 && AlignDown(dtSize, PAGE) != 0 && !GoodGeometry(AlignDown(dtSize, PAGE), prealloc, step);
      initRet := if bad then EINVAL else 0;
      mm := new Allocator(AlignDown(dtSize, PAGE));
      new;
      GeometryInPages(dtSize, prealloc, step);
      if ready && IsPow2(step) { AlignedIsDivides(prealloc, step); }
    }

    method GrowOne() returns (ret: int, ghost es: seq<Event>)
      requires Valid() && ready
      modifies this, host
      ensures Valid() && ready && step == old(step)
      ensures Runs(old(World()), es, World()) && forall e | e in es :: e.Grow?
      ensures backed == if ret == 0 then old(backed) + step else old(backed)
      ensures n == if ret == 0 then old(n) + 1 else old(n)
      ensures ret == 0 ==> step != 0
      ensures !CanGrow(old(View())) ==> es == [] && ret == if step == 0 || backed >= size then ENOSPC else EINVAL
      ensures CanGrow(old(View())) ==> |es| == 1 && ret == GrowVerdict(es[0].share, es[0].gq)
      ensures CanGrow(old(View())) && host.generous ==> ret == 0
    {
      es := [];
      if step == 0 || backed >= size {
        return ENOSPC, es;
      }
      if step > size - backed {
        return EINVAL, es;
      }
      ghost var w := World();
      var offset := backed;
      var range_backed := false;
      OffIsAffine(View(), n);
      assert offset == host.floor + n * host.unit;
      ghost var f, q;
      ret, f := host.Share(offset, step);
      q := NoAnswer(ENODEV);
      if ret == ETIMEDOUT || ret == EEXIST {
        var query_ret;
        query_ret, range_backed, q := host.QueryRange(offset, step);
        if query_ret == 0 && range_backed {
          ret := 0;
        }
      }
      if ret == 0 {
        backed := backed + step;
        n := n + 1;
      }
      BoundaryAfterGrow(w.pool);
      OneStepRun(w, Grow(f, q));
      assert World() == Apply(w, Grow(f, q));
      es := [Grow(f, q)];
    }

    method ShrinkOne() returns (ret: int, ghost es: seq<Event>)
      requires Valid() && ready
      requires CanShrink(View()) ==> TopStepFree(View(), mm.live)
      modifies this, host
      ensures Valid() && ready && (step == old(step) || step == 0)
      ensures Runs(old(World()), es, World()) && forall e | e in es :: e.Shrink?
      ensures !CanShrink(old(View())) ==> es == [] && ret == ENOSPC
      ensures CanShrink(old(View())) ==>
                |es| == 1 && (var v := ShrinkVerdict(es[0].unshare, es[0].sq); ret == if v == EUCLEAN then 0 else v)
      ensures CanShrink(old(View())) ==>
                step == if ShrinkVerdict(es[0].unshare, es[0].sq) == EUCLEAN then 0 else old(step)
      ensures ret == 0 ==> CanShrink(old(View())) && n == old(n) - 1 && backed == old(backed) - unit
      ensures ret != 0 ==> View() == old(View()) && backed == old(backed) && ret != EUCLEAN
    {
      es := [];
      AboveFloorIff(View());
      if step == 0 || backed <= prealloc {
        return ENOSPC, es;
      }
      ghost var w := World();
      BoundaryAfterShrink(w.pool, w.pool.step);
      var offset := backed - step;
      OffIsAffine(View(), n - 1);
      FloorBelow(View(), n - 1);
      assert offset == host.floor + (n - 1) * host.unit;
      ghost var f, q;
      ret, f, q := UnshareStep(offset);
      es := [Shrink(f, q)];
      OneStepRun(w, Shrink(f, q));
      BoundaryAfterShrink(w.pool, 0);
      ghost var w' := Apply(w, Shrink(f, q));
      if ret == EUCLEAN {
        backed, step, n := offset, 0, n - 1;
        assert View() == w'.pool;
        return 0, es;
      }
      if ret == 0 {
        backed, n := offset, n - 1;
      }
      assert View() == w'.pool;
    }

    // Hand the step back; after any error ask whether the host still backs it.
    method UnshareStep(offset: nat) returns (ret: int, ghost f: UnshareFate, ghost q: QueryFate)
      requires host.Valid() && host.Nameable(offset, step)
      modifies host
      ensures host.Valid() && host.st == AfterUnshare(old(host.st), offset, f)
      ensures UnshareCan(f) && ShrinkAnswerFair(f, q) && ret == ShrinkVerdict(f, q)
    {
      var range_backed := true;
      ret, f := host.Unshare(offset, step);
      q := NoAnswer(ENODEV);
      if ret != 0 {
        var query_ret;
        query_ret, range_backed, q := host.QueryRange(offset, step);
        if query_ret == 0 && !range_backed {
          ret := 0;
        }
      }
    }

    // Does any live block touch the top step? The probe takes the exact range and gives it back.
    method StepFree() returns (free: bool)
      requires Valid() && ready
      modifies mm
      ensures Valid() && World() == old(World())
      ensures free ==> CanShrink(View()) && TopStepFree(View(), mm.live)
      ensures CanShrink(View()) && !free && IsPow2(unit) ==> !TopStepFree(View(), mm.live)
      ensures free ==> IsPow2(unit)
    {
      AboveFloorIff(View());
      if step == 0 || backed <= prealloc {
        return false;
      }
      ProbeExact(View(), mm.live);
      free := Probe();
    }

    method Probe() returns (granted: bool)
      requires Valid() && ready && CanShrink(View())
      modifies mm
      ensures mm.Valid() && mm.live == old(mm.live)
      ensures granted <==> ProbeGranted(View(), mm.live)
    {
      BoundaryAfterShrink(View(), step);
      var offset := backed - step;
      var probe := mm.AllocBlocks(offset, offset + step, step, step);
      if probe.Failed? {
        return false;
      }
      ProbeUndone(old(mm.live), probe.blocks, offset, offset + step, step, step);
      mm.FreeBlocks(probe.blocks);
      granted := true;
    }

    // Hand back free steps from the top, until one is in use or the host will not have it.
    method Reclaim() returns (retry: bool, ghost es: seq<Event>)
      requires Valid() && ready
      modifies this, mm, host
      ensures Valid() && ready && mm.live == old(mm.live) && (step == old(step) || step == 0)
      ensures backed <= old(backed) && n <= old(n)
      ensures Reclaimed(old(World()), es, World(), retry)
      ensures !IsPow2(unit) ==> World() == old(World())
    {
      es := [];
      var free := StepFree();
      while free
        invariant Valid() && ready && mm.live == old(mm.live)
        invariant backed <= old(backed) && n <= old(n) && (step == old(step) || step == 0)
        invariant ShrinkRun(old(World()), es, World())
        invariant free ==> CanShrink(View()) && TopStepFree(View(), mm.live) && IsPow2(unit)
        invariant !free && CanShrink(View()) && IsPow2(unit) ==> !TopStepFree(View(), mm.live)
        invariant !IsPow2(unit) ==> World() == old(World()) && es == []
        decreases n, free
      {
        ghost var w := World();
        ghost var more;
        var ret;
        ret, more := ShrinkOne();
        ShrinkRunJoin(old(World()), es, w, more, World(), ret);
        es := es + more;
        if ret != 0 {
          return ret == EBUSY || ret == ETIMEDOUT || ret == EIO, es;
        }
        free := StepFree();
      }
      AboveFloorIff(View());
      retry := false;
    }

    // Grow until the prefix is at least as long as the request. m is the block size asked for later.
    method GrowToFit(request: nat, ghost m: nat) returns (ret: int, ghost grown: seq<Event>)
      requires Valid() && ready && request <= size && m > 0
      modifies this, host
      ensures Valid() && ready && step == old(step) && old(n) <= n && old(backed) <= backed
      ensures GrowRun(old(World()), grown, World(), request, m)
      ensures ret == 0 <==> request <= backed
      ensures ret != 0 ==> Exhausted(View(), grown, ret, request)
      ensures step == 0 ==> n == old(n)
      ensures host.generous ==> AllGranted(grown)
    {
      grown, ret := [], 0;
      ghost var p := View();
      while backed < request
        invariant Valid() && ready && step == old(step) && old(n) <= n && old(backed) <= backed && ret == 0
        invariant step == 0 ==> n == p.n
        invariant GrowRun(old(World()), grown, World(), request, m) && (host.generous ==> AllGranted(grown))
        decreases size - backed
      {
        CapacityBound(mm.live, backed, m);
        if step == 0 {
          return ENOMEM, grown;
        }
        ghost var w, more := World(), [];
        ret, more := GrowOne();
        GrowRunOne(w, more, World(), request, m);
        GrowRunJoin(old(World()), grown, w, more, World(), request, m);
        grown := grown + more;
        if ret != 0 {
          return;
        }
      }
    }

    // Ask the allocator for blocks inside the prefix as it is.
    method AllocOnce(request: nat, m: nat) returns (r: Result)
      requires Valid() && ready && request <= backed && PAGE <= m && IsPow2(m) && request % m == 0
      modifies mm
      ensures Valid() && View() == old(View())
      ensures if 0 < request <= Capacity(old(mm.live), 0, backed, m)
              then r.Got? && Carved(old(mm.live), r.blocks, 0, backed, request, m)
                   && mm.live == old(mm.live) + BlockSet(r.blocks)
              else r == Failed(if request == 0 then EINVAL else ENOSPC) && mm.live == old(mm.live)
    {
      RequestIsGood(View(), request, m);
      r := mm.AllocBlocks(0, backed, request, m);
      if r.Got? { OneStepRun(old(World()), Take(r.blocks, request, m)); }
    }

    // Fit the prefix, then ask the allocator; unfit if the prefix could not be made to fit.
    method FitAndAlloc(request: nat, m: nat)
      returns (unfit: bool, ret: int, blocks: seq<Block>, ghost grown: seq<Event>)
      requires Valid() && ready && request <= size && PAGE <= m && IsPow2(m) && request % m == 0
      modifies this, mm, host
      ensures Valid() && ready && step == old(step) && old(n) <= n && old(backed) <= backed
      ensures GrowRun(old(World()), grown, World().(live := old(mm.live)), request, m)
      ensures host.generous ==> AllGranted(grown)
      ensures ret == 0 <==> 0 < request <= Capacity(old(mm.live), 0, backed, m)
      ensures if ret == 0 then Carved(old(mm.live), blocks, 0, backed, request, m) else blocks == []
      ensures mm.live == old(mm.live) + BlockSet(blocks)
      ensures unfit ==> backed < request && Exhausted(View(), grown, ret, request)
      ensures !unfit && ret != 0 ==> request <= backed && ret == if request == 0 then EINVAL else ENOSPC
    {
      unfit, blocks := false, [];
      ret, grown := GrowToFit(request, m);
      if ret != 0 {
        CapacityBound(mm.live, backed, m);
        unfit := true;
        return;
      }
      var r := AllocOnce(request, m);
      if r.Got? { blocks := r.blocks; } else { ret := r.err; }
    }

    // One turn of the allocation loop; again if a step was added because the prefix is too fragmented.
    method Turn(request: nat, m: nat) returns (again: bool, ret: int, blocks: seq<Block>, ghost grown: seq<Event>)
      requires Valid() && ready && request <= size && PAGE <= m && IsPow2(m) && request % m == 0
      modifies this, mm, host
      ensures Valid() && ready && step == old(step) && old(n) <= n && old(backed) <= backed
      ensures GrowRun(old(World()), grown, World().(live := old(mm.live)), request, m)
      ensures host.generous ==> AllGranted(grown)
      ensures if !again && ret == 0 then Carved(old(mm.live), blocks, 0, backed, request, m) else blocks == []
      ensures mm.live == old(mm.live) + BlockSet(blocks)
      ensures again ==> old(backed) < backed && 0 < request
      ensures !again ==> (ret == 0 <==> 0 < request <= Capacity(old(mm.live), 0, backed, m))
      ensures !again && ret != 0 ==>
                if request == 0 then ret == EINVAL else Exhausted(View(), grown, ret, request)
    {
      var unfit;
      unfit, ret, blocks, grown := FitAndAlloc(request, m);
      again := !(unfit || ret == 0 || ret != ENOSPC || step == 0 || backed >= size);
      if again {
        assert mm.live == old(mm.live);
        ghost var w, more := World(), [];
        ret, more := GrowForFragments(request, m);
        GrowRunJoin(old(World()), grown, w, more, World(), request, m);
        ExhaustedJoin(View(), grown, more, ret, request);
        grown := grown + more;
        again := ret == 0;
      }
    }

    // Fragmentation alone keeps the request out: add one step.
    method GrowForFragments(request: nat, m: nat) returns (ret: int, ghost grown: seq<Event>)
      requires Valid() && ready && m > 0 && step != 0 && backed < size && Unfit(World(), request, m)
      modifies this, host
      ensures Valid() && ready && step == old(step) && old(n) <= n && old(backed) <= backed
      ensures GrowRun(old(World()), grown, World(), request, m) && (host.generous ==> AllGranted(grown))
      ensures ret == 0 ==> old(backed) < backed
      ensures ret != 0 ==> backed == old(backed) && Exhausted(View(), grown, ret, request)
    {
      ghost var w := World();
      ret, grown := GrowOne();
      GrowRunOne(w, grown, World(), request, m);
    }

    // The allocation loop: fit the prefix, ask the allocator, and add a step when it is too fragmented.
    // Every step it adds, it adds when the request does not fit, and it gives up only when no more can be
    // added.
    method AllocLocked(request: nat, m: nat) returns (ret: int, blocks: seq<Block>, ghost grown: seq<Event>)
      requires Valid() && ready && request <= size && PAGE <= m && IsPow2(m) && request % m == 0
      modifies this, mm, host
      ensures Valid() && ready && step == old(step) && old(n) <= n && old(backed) <= backed
      ensures GrowRun(old(World()), grown, World().(live := old(mm.live)), request, m)
      ensures host.generous ==> AllGranted(grown)
      ensures if ret == 0 then Carved(old(mm.live), blocks, 0, backed, request, m) else blocks == []
      ensures mm.live == old(mm.live) + BlockSet(blocks)
      ensures ret == 0 <==> 0 < request <= Capacity(old(mm.live), 0, backed, m)
      ensures ret != 0 ==> if request == 0 then ret == EINVAL else Exhausted(View(), grown, ret, request)
    {
      grown := [];
      while true
        invariant Valid() && ready && step == old(step) && old(n) <= n && old(backed) <= backed
        invariant GrowRun(old(World()), grown, World(), request, m) && mm.live == old(mm.live)
        invariant host.generous ==> AllGranted(grown)
        decreases size - backed
      {
        ghost var w, more := World(), [];
        var again;
        again, ret, blocks, more := Turn(request, m);
        GrowRunJoin(old(World()), grown, w, more, World().(live := w.live), request, m);
        ExhaustedJoin(View(), grown, more, ret, request);
        grown := grown + more;
        if !again { return; }
      }
    }

    // Give back what an allocation that failed has grown.
    method Unwind(ghost w: World, ghost grown: seq<Event>) returns (retry: bool, ghost given: seq<Event>)
      requires Valid() && ready && Inv(w) && w.live == mm.live && w.pool == View().(n := w.pool.n) && w.pool.n <= n
      requires Runs(w, grown, World()) && forall e | e in grown :: !e.Shrink?
      modifies this, mm, host
      ensures Valid() && ready && mm.live == old(mm.live) && backed <= old(backed)
      ensures Reclaimed(old(World()), given, World(), retry)
      ensures backed > w.pool.Backed() <==> LeftHigh(w, grown + given)
      ensures !IsPow2(unit) ==> backed == old(backed)
    {
      ghost var v := World();
      retry, given := Reclaim();
      RunsJoin(w, grown, v, given, World());
      UnwoundHeight(w, grown, v, given, World());
    }

    // Carve at least size bytes out of the pool as a list of blocks. grown are the steps added, given the
    // steps given back.
    method Alloc(size0: nat, maxNents: int)
      returns (ret: int, blocks: seq<Block>, retry: bool, ghost grown: seq<Event>, ghost given: seq<Event>)
      requires Valid() && size0 < U64 && (maxNents > 0 ==> size0 <= U64 - PAGE)
      modifies this, mm, host
      ensures Valid() && ready == old(ready) && mm.live == old(mm.live) + BlockSet(blocks)
      ensures !ready || size0 == 0 || Asked(size0, maxNents).0 > size ==>
                ret == ENOMEM && blocks == [] && grown == given == [] && !retry && World() == old(World())
      ensures ready && size0 > 0 && Asked(size0, maxNents).0 <= size ==>
                var (r, m) := Asked(size0, maxNents);
                Allocated(old(World()), r, m, ret, blocks, retry, grown, given, World())
      // A request that fits below the boundary is served without growing.
      ensures ready && size0 > 0 && Asked(size0, maxNents).0 <= size ==>
                var (r, m) := Asked(size0, maxNents);
                0 < r <= Capacity(old(mm.live), 0, old(backed), m) ==> ret == 0 && grown == [] && backed == old(backed)
      // Against a generous host the allocation fails only if no reachable prefix could hold it.
      ensures ready && size0 > 0 && host.generous ==>
                var (r, m) := Asked(size0, maxNents); ret == 0 <==> Fits(old(View()), old(mm.live), r, m)
      // A failure leaves the boundary higher than it found it if and only if giving the new steps back was
      // stopped early: by a broken or failed shrink, or, for a step that is no power of two, always.
      ensures ready && ret != 0 ==> (backed > old(backed) <==> LeftHigh(old(World()), grown + given))
    {
      ret, blocks, retry, grown, given := ENOMEM, [], false, [], [];
      if !ready || size0 == 0 {
        return;
      }
      var s := AlignUp64(size0, PAGE);
      AskedInBlocks(size0, maxNents);
      var min_bs, request_size := PAGE, s;
      if s > 0 {
        min_bs, request_size := MinBlock(s, maxNents), Request(s, maxNents);
      }
      if request_size > size {
        AtReach(View());
        CapacityBound(mm.live, Reach(View()), min_bs);
        return;
      }
      ret, blocks, retry, grown, given := AllocAsked(request_size, min_bs);
    }

    method AllocAsked(request: nat, m: nat)
      returns (ret: int, blocks: seq<Block>, retry: bool, ghost grown: seq<Event>, ghost given: seq<Event>)
      requires Valid() && ready && request <= size && PAGE <= m && IsPow2(m) && request % m == 0
      modifies this, mm, host
      ensures Valid() && ready && mm.live == old(mm.live) + BlockSet(blocks)
      ensures Allocated(old(World()), request, m, ret, blocks, retry, grown, given, World())
      ensures 0 < request <= Capacity(old(mm.live), 0, old(backed), m) ==>
                ret == 0 && grown == [] && backed == old(backed)
      ensures host.generous ==> (ret == 0 <==> Fits(old(View()), old(mm.live), request, m))
      ensures ret != 0 ==> (backed > old(backed) <==> LeftHigh(old(World()), grown + given))
    {
      retry, given := false, [];
      ghost var w := World();
      ret, blocks, grown := AllocLocked(request, m);
      ghost var v := World().(live := w.live);
      GenerousServes(w.pool, v.pool, w.live, grown, ret, request, m);
      if ret != 0 {
        retry, given := Unwind(w, grown);
      }
      if 0 < request <= Capacity(w.live, 0, w.pool.Backed(), m) {
        FitsMeansNoGrowth(w, request, m, ret, blocks, retry, grown, given, World());
      }
    }

    // Give a list of blocks back, then whatever steps that frees.
    method Free(blocks: seq<Block>) returns (retry: bool, ghost es: seq<Event>)
      requires Valid() && (ready ==> BlockSet(blocks) <= mm.live)
      modifies this, mm, host
      ensures Valid() && ready == old(ready)
      ensures ready ==> mm.live == old(mm.live) - BlockSet(blocks) && Runs(old(World()), es, World())
      ensures ready ==> backed <= old(backed)
      ensures ready && blocks != [] ==>
                && es != [] && es[0] == Give(blocks)
                && Reclaimed(Apply(old(World()), Give(blocks)), es[1..], World(), retry)
      ensures !ready || blocks == [] ==> World() == old(World()) && backed == old(backed) && !retry && es == []
    {
      retry, es := false, [];
      if !ready || blocks == [] {
        return;
      }
      ghost var w := World();
      mm.FreeBlocks(blocks);
      OneStepRun(w, Give(blocks));
      ghost var w1, more := World(), [];
      retry, more := Reclaim();
      RunsJoin(old(World()), [Give(blocks)], w1, more, World());
      es := [Give(blocks)] + more;
      assert es[1..] == more;
    }

    // The delayed retry of a reclaim that was refused.
    method ReclaimWork() returns (retry: bool, ghost es: seq<Event>)
      requires Valid()
      modifies this, mm, host
      ensures Valid() && ready == old(ready) && mm.live == old(mm.live)
      ensures ready ==> Reclaimed(old(World()), es, World(), retry) && backed <= old(backed)
      ensures !ready ==> World() == old(World()) && backed == old(backed) && !retry
    {
      retry, es := false, [];
      if ready {
        retry, es := Reclaim();
      }
    }

    // Close the gate; nothing is handed out or taken back afterwards.
    method Fini() returns (leaked: bool)
      requires Valid()
      modifies this`ready
      ensures Valid() && !ready && World() == old(World())
      ensures leaked <==> old(ready) && mm.live != {}
    {
      leaked := ready && mm.live != {};
      ready := false;
    }
  }

  // Something grown for an allocation that failed was not given back.
  ghost predicate LeftHigh(w: World, es: seq<Event>) {
    if IsPow2(w.pool.unit) then StopsHigh(w, es) else exists i: nat :: Grew(es, i)
  }

  // From w something was grown, and from v given back until it stopped or nothing was left to give.
  lemma UnwoundHeight(w: World, grown: seq<Event>, v: World, more: seq<Event>, u: World)
    requires Runs(w, grown, v) && Runs(w, grown + more, u) && Inv(w) && SameWindow(w.pool, u.pool) && Shape(u.pool)
    requires (forall e | e in grown :: !e.Shrink?) && FailsLast(more) && (!IsPow2(w.pool.unit) ==> more == [])
    requires w.live == u.live && (u.pool.step == w.pool.step || u.pool.step == 0)
    requires IsPow2(w.pool.unit) && (forall i: nat :: !Fails(more, i)) ==>
               u.pool.step == 0 || u.pool.Backed() == u.pool.prealloc || !TopStepFree(u.pool, u.live)
    ensures u.pool.Backed() > w.pool.Backed() <==> LeftHigh(w, grown + more)
  {
    UnusedStepsGoBack(w.pool, u.pool, w.live);
    if IsPow2(w.pool.unit) {
      forall i: nat ensures !Fails(grown, i) { if i < |grown| { assert grown[i] in grown; } }
      FailsJoin(grown, more);
      FloorBelow(w.pool, w.pool.n);
      if w.pool.step == 0 { NoGrowthWhenOff(w, grown + more); }
      HigherIff(w, grown + more);
    } else {
      assert grown + more == grown;
      HigherIffGrew(w, grown);
    }
  }

  lemma {:induction false} NoGrowthWhenOff(w: World, es: seq<Event>)
    requires w.pool.step == 0 && IsRun(w, es)
    ensures After(w, es).pool == w.pool
    decreases |es|
  {
    if es != [] {
      var init := es[..|es| - 1];
      assert forall i | 0 <= i <= |init| :: init[..i] == es[..i];
      NoGrowthWhenOff(w, init);
      assert Enabled(After(w, init), es[|es| - 1]);
    }
  }

  // Steps given back, none of which failed.
  ghost predicate ShrinkRun(w: World, es: seq<Event>, u: World) {
    Runs(w, es, u) && (forall e | e in es :: e.Shrink?) && forall i: nat :: !Fails(es, i)
  }

  lemma ShrinkRunJoin(w: World, es: seq<Event>, v: World, more: seq<Event>, u: World, ret: int)
    requires ShrinkRun(w, es, v) && Runs(v, more, u) && |more| == 1 && more[0].Shrink?
    requires var x := ShrinkVerdict(more[0].unshare, more[0].sq); ret == if x == EUCLEAN then 0 else x
    ensures var all := es + more;
            if ret == 0 then ShrinkRun(w, all, u)
            else Runs(w, all, u) && (forall e | e in all :: e.Shrink?) && FailsLast(all) && LastFailure(all) == ret
  {
    RunsJoin(w, es, v, more, u);
    LastOneFails(es, more, ret);
  }

  lemma LastOneFails(es: seq<Event>, more: seq<Event>, ret: int)
    requires (forall e | e in es :: e.Shrink?) && (forall i: nat :: !Fails(es, i)) && |more| == 1 && more[0].Shrink?
    requires var x := ShrinkVerdict(more[0].unshare, more[0].sq); ret == if x == EUCLEAN then 0 else x
    ensures var all := es + more;
            && (forall e | e in all :: e.Shrink?)
            && if ret == 0 then forall i: nat :: !Fails(all, i) else FailsLast(all) && LastFailure(all) == ret
  {
    FailsJoin(es, more);
    assert ret != 0 <==> Fails(more, 0);
    assert (es + more)[|es|] == more[0];
  }

  lemma FailsJoin(es: seq<Event>, more: seq<Event>)
    requires forall i: nat :: !Fails(es, i)
    ensures forall i: nat :: Fails(es + more, i) <==> |es| <= i && Fails(more, i - |es|)
    ensures (forall i: nat :: !Fails(es + more, i)) ==> forall i: nat :: !Fails(more, i)
  {
    forall i: nat ensures Fails(es + more, |es| + i) <==> Fails(more, i) {}
    forall i: nat ensures Fails(es + more, i) <==> |es| <= i && Fails(more, i - |es|) {
      assert i < |es| ==> !Fails(es, i);
    }
  }

  lemma LastPageWraps(size: nat)
    requires U64 - PAGE < size < U64
    ensures AlignUp64(size, PAGE) == 0
  {
    assert (size + PAGE - 1) % U64 == size + PAGE - 1 - U64;
  }

  lemma AskedInBlocks(size0: nat, maxNents: int)
    requires 0 < size0 < U64
    ensures var (r, m) := Asked(size0, maxNents); PAGE <= m && IsPow2(m) && r % m == 0
  {
    if size0 > U64 - PAGE { LastPageWraps(size0); } else { AlignUpExact(size0, PAGE); }
    PageIsPow2();
    if AlignUp64(size0, PAGE) > 0 { RequestInBlocks(AlignUp64(size0, PAGE), maxNents); }
  }

  lemma RequestInBlocks(s: nat, maxNents: int)
    requires s > 0 && s % PAGE == 0
    ensures var m := MinBlock(s, maxNents); IsPow2(m) && PAGE <= m && Request(s, maxNents) % m == 0
  {
    ExactDiv(s, PAGE);
    AtLeastOnce(FloorDiv(s, PAGE), PAGE);
    MinBlockShape(s, maxNents);
    if maxNents > 0 { AlignedAfterWrap(s, MinBlock(s, maxNents)); }
  }

  lemma AlignedAfterWrap(x: nat, a: nat)
    requires a > 0
    ensures AlignUp64(x, a) % a == 0
  {
    var t := (x + a - 1) % U64;
    DivFloor(t, a);
    assert t - t % a == FloorDiv(t, a) * a;
    DividesMul(FloorDiv(t, a), a);
  }

  // Steps above the boundary p had when live was below it are free in p'.
  lemma UnusedStepsGoBack(p: PoolMachine.Pool, p': PoolMachine.Pool, live: set<Block>)
    requires Shape(p) && Shape(p') && SameWindow(p, p')
    requires forall b | b in live :: b.End() <= p.Backed()
    ensures p'.n > p.n ==> TopStepFree(p', live)
    ensures p'.n <= p.n <==> p'.Backed() <= p.Backed()
  {
    OffFrame(p, p', p.n);
    if p'.n > p.n + 1 { OffOrder(p', p.n, p'.n - 1); }
    if p'.n > p.n { OffOrder(p', p.n, p'.n); }
    if p'.n < p.n { OffOrder(p', p'.n, p.n); }
  }

  // Reach depends only on the window and the switch, once a switched-off pool cannot grow.
  lemma ReachKept(p: PoolMachine.Pool, p': PoolMachine.Pool)
    requires SameWindow(p, p') && p.step == p'.step && p.prealloc <= p.size && (p.step == 0 ==> p.n == p'.n)
    ensures Reach(p) == Reach(p')
  {
    if p.step == 0 { OffFrame(p, p', p.n); } else { OffFrame(p, p', FloorDiv(p.size - p.prealloc, p.step)); }
  }

  // ----- what the methods promise, over the steps they take -----

  // Steps added one after the other, each when the request did not fit below the boundary.
  ghost predicate GrowRun(w: World, es: seq<Event>, u: World, request: nat, m: nat)
    requires m > 0
  {
    && Runs(w, es, u)
    && forall i | 0 <= i < |es| :: es[i].Grow? && Unfit(After(w, es[..i]), request, m)
  }

  ghost predicate Unfit(w: World, request: nat, m: nat)
    requires m > 0
  {
    request > Capacity(w.live, 0, w.pool.Backed(), m)
  }

  ghost predicate AllGranted(es: seq<Event>) {
    forall e | e in es :: e.Grow? && GrowVerdict(e.share, e.gq) == 0
  }

  // Why no step can be added for the request: the host refused the last one, or there is none.
  ghost predicate Exhausted(p: PoolMachine.Pool, grown: seq<Event>, ret: int, request: nat) {
    || (grown != [] && var e := grown[|grown| - 1]; e.Grow? && GrowVerdict(e.share, e.gq) == ret != 0)
    || (!CanGrow(p) && ret == (if p.step == 0 then if p.Backed() < request then ENOMEM else ENOSPC
                               else if p.Backed() >= p.size then ENOSPC else EINVAL))
  }

  ghost function LastFailure(es: seq<Event>): int {
    if es != [] && Fails(es, |es| - 1) then ShrinkVerdict(es[|es| - 1].unshare, es[|es| - 1].sq) else 0
  }

  ghost predicate NothingLeft(p: PoolMachine.Pool, live: set<Block>) {
    p.step == 0 || p.n == 0 || !TopStepFree(p, live)
  }

  // Steps given back until one failed or none was left to give; a try later is worth it after some errors.
  ghost predicate Reclaimed(w: World, es: seq<Event>, u: World, retry: bool) {
    && Runs(w, es, u) && u.live == w.live && (forall e | e in es :: e.Shrink?) && FailsLast(es)
    && (retry <==> LastFailure(es) in {EBUSY, ETIMEDOUT, EIO})
    && (if IsPow2(w.pool.unit) then LastFailure(es) == 0 ==> NothingLeft(u.pool, u.live) else es == [])
  }

  // Bytes and block size asked of the allocator for an object of the given size.
  function Asked(size0: nat, maxNents: int): (r: (nat, nat))
    requires 0 < size0
    ensures r.1 > 0
  {
    var s := AlignUp64(size0, PAGE);
    if s == 0 then (0, PAGE) else (Request(s, maxNents), MinBlock(s, maxNents))
  }

  // An allocation that went through the loop: after the steps it had to add, it is served exactly when
  // the request fits, and takes nothing but its blocks; otherwise no more could be added, and what was is
  // given back.
  ghost predicate Allocated(w: World, request: nat, m: nat, ret: int, blocks: seq<Block>, retry: bool,
                            grown: seq<Event>, given: seq<Event>, u: World)
  {
    m > 0 &&
    var v := After(w, grown);
    && GrowRun(w, grown, v, request, m)
    && (ret == 0 <==> 0 < request <= Capacity(v.live, 0, v.pool.Backed(), m))
    && if ret == 0
       then Carved(w.live, blocks, 0, u.pool.Backed(), request, m) && given == [] && !retry
            && u == Apply(v, Take(blocks, request, m))
       else blocks == [] && Reclaimed(v, given, u, retry)
            && if request == 0 then ret == EINVAL else Exhausted(v.pool, grown, ret, request)
  }

  // A request that fits below the boundary is served there and then: nothing is asked of the host.
  lemma FitsMeansNoGrowth(w: World, request: nat, m: nat, ret: int, blocks: seq<Block>, retry: bool,
                          grown: seq<Event>, given: seq<Event>, u: World)
    requires Allocated(w, request, m, ret, blocks, retry, grown, given, u)
    requires 0 < request <= Capacity(w.live, 0, w.pool.Backed(), m)
    ensures ret == 0 && grown == given == [] && u.pool == w.pool && u.host == w.host
  {
    if grown != [] { GrowRunStarts(w, grown, After(w, grown), request, m); }
  }

  lemma GrowRunStarts(w: World, es: seq<Event>, u: World, request: nat, m: nat)
    requires m > 0 && GrowRun(w, es, u, request, m) && es != []
    ensures Unfit(w, request, m)
  {
    assert es[..0] == [] && es[0].Grow?;
  }

  lemma {:induction false} AfterJoin(w: World, es: seq<Event>, more: seq<Event>)
    ensures After(w, es + more) == After(After(w, es), more)
    decreases |more|
  {
    if more == [] {
      assert es + more == es;
    } else {
      var n := |more| - 1;
      AfterJoin(w, es, more[..n]);
      JoinLast(es, more);
      AfterSnoc(w, es + more[..n], more[n]);
    }
  }

  lemma AfterSnoc(w: World, es: seq<Event>, e: Event)
    ensures After(w, es + [e]) == Apply(After(w, es), e)
  {
    assert (es + [e])[..|es|] == es;
  }

  lemma GrowRunOne(w: World, es: seq<Event>, u: World, request: nat, m: nat)
    requires m > 0 && Runs(w, es, u) && |es| <= 1 && (forall e | e in es :: e.Grow?) && Unfit(w, request, m)
    ensures GrowRun(w, es, u, request, m)
  {
    if es != [] { assert es[0] in es && es[..0] == []; }
  }

  lemma GrowRunJoin(w: World, es: seq<Event>, v: World, more: seq<Event>, u: World, request: nat, m: nat)
    requires m > 0 && GrowRun(w, es, v, request, m) && GrowRun(v, more, u, request, m)
    ensures GrowRun(w, es + more, u, request, m)
  {
    RunsJoin(w, es, v, more, u);
    var all := es + more;
    forall i | 0 <= i < |all| ensures all[i].Grow? && Unfit(After(w, all[..i]), request, m) {
      if i < |es| {
        assert all[..i] == es[..i];
      } else {
        assert all[..i] == es + more[..i - |es|];
        AfterJoin(w, es, more[..i - |es|]);
      }
    }
  }

  lemma ExhaustedJoin(p: PoolMachine.Pool, es: seq<Event>, more: seq<Event>, ret: int, request: nat)
    ensures Exhausted(p, more, ret, request) ==> Exhausted(p, es + more, ret, request)
  {}

  // Against a generous host only the end of the window stops the loop.
  lemma GenerousServes(p: PoolMachine.Pool, q: PoolMachine.Pool, live: set<Block>, grown: seq<Event>, ret: int,
                       request: nat, m: nat)
    requires Shape(q) && SameWindow(p, q) && p.step == q.step && p.prealloc <= p.size && m > 0
    requires p.step == 0 ==> p.n == q.n
    requires ret == 0 <==> 0 < request <= Capacity(live, 0, q.Backed(), m)
    requires ret != 0 && request > 0 ==> Exhausted(q, grown, ret, request)
    ensures AllGranted(grown) ==> (ret == 0 <==> Fits(p, live, request, m))
  {
    ReachKept(p, q);
    FitsAt(q, live, request, m);
    if AllGranted(grown) && grown != [] { assert grown[|grown| - 1] in grown; }
  }

  // What fits below the boundary fits; what does not fit below a boundary at its limit never will.
  lemma FitsAt(p: PoolMachine.Pool, live: set<Block>, request: nat, m: nat)
    requires Shape(p) && p.prealloc <= p.size && m > 0
    ensures 0 < request <= Capacity(live, 0, p.Backed(), m) ==> Fits(p, live, request, m)
    ensures !CanGrow(p) || p.Backed() == Reach(p) ==>
              (Fits(p, live, request, m) <==> 0 < request <= Capacity(live, 0, p.Backed(), m))
              && (p.Backed() < request ==> !Fits(p, live, request, m))
  {
    AtReach(p);
    CapacityGrows(live, p.Backed(), Reach(p), m);
    CapacityBound(live, p.Backed(), m);
  }

  lemma AtReach(p: PoolMachine.Pool)
    requires Shape(p) && p.prealloc <= p.size
    ensures p.Backed() <= Reach(p) <= p.size
    ensures !CanGrow(p) ==> p.Backed() == Reach(p)
  {
    if p.step != 0 { ReachIsLimit(p); }
  }

  lemma RequestIsGood(p: PoolMachine.Pool, request: nat, m: nat)
    requires Shape(p) && p.prealloc % PAGE == 0 && p.unit % PAGE == 0 && request <= p.Backed()
    requires PAGE <= m && IsPow2(m) && request % m == 0
    ensures request > 0 <==> GoodRequest(p.size, 0, p.Backed(), request, m)
  {
    OffDivides(p, p.n, PAGE);
    ExactDiv(request, m);
    AtLeastOnce(FloorDiv(request, m), m);
  }

  // The boundary is above the floor exactly when a step has been grown.
  lemma AboveFloorIff(p: PoolMachine.Pool)
    requires Shape(p)
    ensures p.step != 0 ==> (p.n > 0 <==> p.Backed() > p.prealloc)
    ensures p.n == 0 ==> p.Backed() == p.prealloc
  {
    if p.n > 0 { OffOrder(p, 0, p.n); }
  }

  lemma {:induction false} OffDivides(p: PoolMachine.Pool, k: nat, d: nat)
    requires d > 0 && p.prealloc % d == 0 && p.unit % d == 0
    ensures p.Off(k) % d == 0
  {
    if k > 0 {
      OffDivides(p, k - 1, d);
      DividesSum(p.Off(k - 1), p.unit, d);
    }
  }

  // Whether the allocator grants the exact range of the top step.
  ghost predicate ProbeGranted(p: PoolMachine.Pool, live: set<Block>)
    requires p.n > 0
  {
    GoodRequest(p.size, p.Off(p.n - 1), p.Backed(), p.step, p.step)
    && p.step <= Capacity(live, p.Off(p.n - 1), p.Backed(), p.step)
  }

  // The top step is one chunk, and the probe asks for just that.
  lemma ProbeIsChunk(p: PoolMachine.Pool, live: set<Block>)
    requires Shape(p) && p.step != 0 && p.n > 0 && p.Off(p.n - 1) % p.step == 0
    ensures p.step <= Capacity(live, p.Off(p.n - 1), p.Backed(), p.step) <==> TopStepFree(p, live)
  {
    ExactChunk(live, p.Off(p.n - 1), p.step);
  }

  lemma ProbeAligned(p: PoolMachine.Pool)
    requires Shape(p) && p.step != 0 && p.n > 0
    requires p.size % PAGE == 0 && p.prealloc % PAGE == 0 && p.unit % PAGE == 0 && p.prealloc % p.unit == 0
    requires IsPow2(p.unit)
    ensures GoodRequest(p.size, p.Off(p.n - 1), p.Backed(), p.step, p.step) && p.Off(p.n - 1) % p.step == 0
  {
    OffDivides(p, p.n - 1, PAGE);
    OffDivides(p, p.n, PAGE);
    OffDivides(p, p.n - 1, p.unit);
    OffDivides(p, p.n, p.unit);
    DividesMul(1, p.unit);
    ExactDiv(p.unit, PAGE);
    AtLeastOnce(FloorDiv(p.unit, PAGE), PAGE);
  }

  // The probe is exact for a power-of-two step, and refused for any other.
  lemma ProbeExact(p: PoolMachine.Pool, live: set<Block>)
    requires Shape(p) && p.step != 0 && p.n > 0
    requires p.size % PAGE == 0 && p.prealloc % PAGE == 0 && p.unit % PAGE == 0
    ensures ProbeGranted(p, live) ==> IsPow2(p.unit) && TopStepFree(p, live)
    ensures IsPow2(p.unit) && p.prealloc % p.unit == 0 && TopStepFree(p, live) ==> ProbeGranted(p, live)
  {
    if IsPow2(p.unit) && p.prealloc % p.unit == 0 { ProbeAligned(p); }
    if p.Off(p.n - 1) % p.step == 0 { ProbeIsChunk(p, live); }
  }

  lemma ProbeUndone(live: set<Block>, bs: seq<Block>, lo: nat, hi: nat, size: nat, m: nat)
    requires m > 0 && Carved(live, bs, lo, hi, size, m)
    ensures (live + BlockSet(bs)) - BlockSet(bs) == live
  {
    forall b | b in bs ensures b !in live {
      assert RangeFree(live, b.off, b.End());
    }
  }

  lemma GeometryInPages(dtSize: nat, prealloc: nat, step: nat)
    ensures var size := AlignDown(dtSize, PAGE);
            size % PAGE == 0 && (GoodGeometry(size, prealloc, step) ==> prealloc % PAGE == 0 && step % PAGE == 0)
  {
    PageIsPow2();
    AlignedIsDivides(prealloc, PAGE);
    if step % SZ_2M == 0 { DividesTrans(step, SZ_2M, PAGE); }
  }
}
