# A verified model of the virtio-gpu guest driver's protected-memory paths

This project models, in Dafny 4.11, the part of the guest driver that hands memory to a host that may
refuse, forget or lose a message: the growable guest pool, the Gunyah transport below it, and the
fence, control-queue, capset and sync-object bookkeeping around it. Code that changes state in place is
modelled by classes and methods with loops; what interleaves is modelled by state machines, and the
theorems are about every run of those machines.

## How it is laid out

- `Arith`, `Blocks`, `Errno`: 64-bit rounding as the kernel macros do it (a mask test, not a
  remainder), address blocks, and counting free aligned chunks.
- `Buddy`: the contract of `drm_buddy`, which is not part of this repository, with one realisation of it.
  A request succeeds exactly when enough free aligned chunks of the minimum size lie in range.
- `PoolHost`, `PoolMachine`, `GuestPool`, `LazyGrowth`, `BlockSizing`: the growable pool. `PoolHost` gives
  every SHARE, UNSHARE and query a fate (done or not, answered or lost, served late). `PoolMachine`
  interleaves those with allocations and frees. `GuestPool.Pool` is the driver code; each of its methods
  is proved to take steps of that machine, returned as a ghost list of events.
- `Drain`: a list drained from the front while others add to its end, as two workers do.
- `BlockWalks`, `VramObject`, `ResourceLife`: mmap, mem-entries and DMA segments over one block list, one
  object from creation to the reply that ends it, and the resource protocol over whole runs.
- `RmWire`, `RmClient`: the Resource Manager (RM) messages byte by byte, and the polled RPC.
- `AcceptTable`, `AcceptDevice`, `PoolQueue`, `LockOrder`: the accept table and its worker, the pool request
  queue with its time-outs, and which lock waits for which.
- `Fences`, `CtrlQueue`, `CtrlDevice`, `ObjArrays`: fence numbers and signalling, the control virtqueue as a
  machine and as driver code, and the object arrays it carries.
- `CapsetCache`, `SyncObjs`: the capability-set cache and the sync objects of a submission.

## Main results

1. *Safety of the pool.* In every run with fair answers every byte of every live block can be touched
   (`LiveBlocksStayReachable`). Fairness is not a convenience: a step keeps the invariant if and only if
   the answers it got were fair (`StepSafeIff`), and one unanswered query after a lost UNSHARE already
   gives out memory nobody can touch (`UnansweredShrinkIsUnsafe`).
2. *Lazy growth is invisible*, if and only if whole steps fill the window: then, and only then, the growing
   pool serves every request exactly as a fully backed one (`RefinesFullyBackedIff`; a power-of-two step
   always does). `Pool.Alloc` is proved to meet that exactly against a host that grants every step. It is
   lazy indeed: every step is asked for in a state in which the request does not fit, so what fits is served
   without a word to the host (`FitsMeansNoGrowth`), and steps go back as soon as nothing uses them (`Pool.Free`).
3. *The walks agree.* A user mapping, the mem-entries and the DMA segments send each byte of an object to
   the same address, and a mapping of an object the driver made never runs short.
4. *Memory the host may hold is never free*, over every run of the resource protocol.
5. *RPC and accept table.* A reply is always the one to this request, for unbounded runs with 16-bit
   sequence numbers, and the one assumption this needs is exact: a queued reply is taken for the next
   request's if and only if it is a full round of numbers old (`TakenForNextIff`). Over every run the table
   agrees with the RM throughout if and only if no request that asked the RM was acted on without an answer,
   and every completion tells the host the truth about its own request (`CompletionsTellTheTruth`).
6. *No wait cycle* between growing and accepting. Each thread runs its program of lock, queue and wait steps
   over one table of lock holders. Over every run a thread waiting for the host holds at most the guest
   pool's lock, waiting always goes up a ladder of levels, and a request the host has posted can be
   completed in at most 25 steps of the accepting side alone.
7. *Fences.* Each fence is signalled once over every run. Each timeline is signalled in order if and only if
   every fence reported compared rightly with those pending on its own timeline (`TimelinesInOrderIff`).
8. *References balance* in the control queue, in object arrays and on every exit of a submission.
9. *Capsets.* One entry, one request and at most one answer for each pair, whatever the interleaving, and
   every reader gets the bytes of that answer.

## Where the code does less than its comments or callers may expect

- `virtio_gpu/virtgpu_vram.c:522-526` says a step need not be a power of two. The `IS_ALIGNED` tests at
  `:527-528` are mask tests, so they accept a 6 MiB step with an 8 MiB window, whose last 2 MiB can then
  never be reached (`OddStepLosesTheTail`), and the probe at `:745-749` passes the step as the minimum block
  size, so such a pool never shrinks (last clause of `Pool.Reclaim`). Growing reaches the end of the window
  if and only if whole steps fill it (`ReachesEndIff`), and exactly then nothing is lost
  (`RefinesFullyBackedIff`).
- The bound on mem-entries holds for every block list the allocator may return if and only if
  `guest_pool_max_nents` is at least two, or the size is a power of two (`EntryBoundHoldsIff`). The check at
  `virtio_gpu/virtgpu_vram.c:921` catches the rest.
- The comment at `virtio_gpu/virtgpu_vram.c:600` speaks of 2 KiB splits; blocks are never below a page
  (`MinBlockShape`).
- Mem-entry lengths are 32 bits wide, so the entries cover the object if and only if every block is below
  4 GiB (`EntriesCompleteIff`).
- Steps grown for an allocation that fails are meant to go back. Exactly when they do not is the last clause
  of `Pool.Alloc`. For a power-of-two step the boundary ends higher than the allocation found it if and
  only if a shrink was answered EUCLEAN with more than one new step still in place, or failed with at
  least one (`HigherIff`); `BrokenShrinkLeavesHigher` is such a run. For any other step it ends higher if
  and only if something was grown at all (`HigherIffGrew`), because the probe never lets a shrink happen:
  in the 8 MiB window above, a request for 8 MiB fails and leaves 6 MiB (`OddStepKeepsWhatItGrew`).
- DMA segment lengths are 32 bits wide too: a failing `virtio_gpu_vram_map_dma_buf` leaves nothing mapped if
  and only if every block mapped so far is below 4 GiB (`MapDma`).
- Fence comparison looks at 32 bits. A fence that waits while 2^31 - 1 others come and go is overtaken by the
  next fence of its own timeline (`SomeRunBreaksOrder`).
- `vmalloc_to_sgt` is right exactly for buffers below 2 GiB: above, the first length is negative.
- The capset callback does not look at the response type. A valid entry holds the bytes of an OK response
  if and only if the one answer to its pair was OK (`ValidHoldsOkIff`); after a refusal every reader gets
  a buffer of zeros and no error (`ErrorIsServedAsData`).
- A submission whose in-fence wait fails after the descriptors were parsed still resets the sync objects
  marked for reset (`Submission.Exec`).

## What is assumed

- `drm_buddy` as in `Buddy`, its own bookkeeping memory always available.
- The pool queue is in order. A "backed" answer means mapped, and the query after an UNSHARE that acted
  and lost its reply is answered. That these are what safety needs is proved, not assumed.
- The host knows the pool by the geometry the device tree gives, and the base address is page-aligned.
- An RM reply carries the answer to the request whose number it has, and no reply still queued comes from
  a request more than 65535 back.
- Resource ids are not reused while the device lives. `dma_fence_is_later` compares the low 32 bits as a
  signed difference.
- Descriptors, once counted as free, suffice for the command added.

## Model

| member | source | states |
|---|---|---|
| PoolMachine.LiveBlocksStayReachable | virtio_gpu/virtgpu_vram.c:416-445 | over every run with fair answers, any interleaving of grow, shrink, late service, allocation and free: every byte of every live block lies in the floor or in a mapped step |
| PoolMachine.StepSafeIff | virtio_gpu/virtgpu_vram.c:696-731 | a step keeps live blocks below the boundary and the prefix mapped if and only if its answers were fair |
| PoolMachine.GrowSafeIff | virtio_gpu/virtgpu_vram.c:416-445 | the grow half: "backed" after a doubtful SHARE must mean mapped, and that is all |
| PoolMachine.GrowSucceedsIff | virtio_gpu/virtgpu_vram.c:429-444 | which replies and query answers make a grow succeed, and which error stands otherwise |
| PoolMachine.ShrinkSafeIff | virtio_gpu/virtgpu_vram.c:696-731 | the shrink half: a lost UNSHARE that acted must be answered by the query, and that is all |
| PoolMachine.ShrinkSucceedsIff | virtio_gpu/virtgpu_vram.c:709-731 | the same for a shrink: done, or reported unbacked after any error; EUCLEAN only if that was the reply |
| PoolMachine.UnansweredShrinkIsUnsafe | virtio_gpu/virtgpu_vram.c:710-717 | a run in which the query after a lost UNSHARE goes unanswered and a live block ends in unmapped memory |
| PoolMachine.NamedRangesAreSteps | virtio_gpu/virtgpu_vram.c:416-445 | however the host answers, every range named to it is one whole step of the growable part, inside the window |
| PoolMachine.StrandedStepIsAdopted | virtio_gpu/virtgpu_vram.c:416-445 | a step granted and mapped behind the driver's back, by a lost reply, late service or a reload, stays so over any run that leaves the boundary in place, and the first grow whose query is answered truthfully takes it in |
| PoolMachine.LostGrantStrands | virtio_gpu/virtgpu_vram.c:429-444 | a SHARE served with the reply and the query lost leaves just such a step |
| PoolMachine.HigherIff | virtio_gpu/virtgpu_vram.c:684-773 | over a run that goes on shrinking until it is stopped or done: it ends higher if and only if a shrink broke with more than one new step in place or failed with at least one |
| PoolMachine.HigherIffGrew | virtio_gpu/virtgpu_vram.c:735-773 | over a run without shrinks: it ends higher if and only if a grow succeeded |
| PoolMachine.BrokenShrinkLeavesHigher | virtio_gpu/virtgpu_vram.c:719-728 | two steps granted, a third refused, the first shrink answered EUCLEAN: the boundary stays a step higher |
| PoolMachine.ReachIsLimit | virtio_gpu/virtgpu_vram.c:421-427 | the highest reachable boundary is the last whole step below the end of the window |
| PoolHost.HostPool.Share | gunyah_guest/gunyah_guest.c:588-596 | the host's answers to SHARE: granted or not, answered or lost, left in the queue; EEXIST for a range it already granted |
| PoolHost.HostPool.Unshare | gunyah_guest/gunyah_guest.c:597-604 | the host's answers to UNSHARE, EUCLEAN meaning that the guest mapping is gone but the grant is not |
| PoolHost.HostPool.QueryRange | gunyah_guest/gunyah_guest.c:614-629 | a query is answered about this exact range or not at all |
| GuestPool.Pool.constructor | virtio_gpu/virtgpu_vram.c:488-556 | ready if and only if the window exists and the mask tests on prealloc and step pass, EINVAL if only the tests fail; the boundary starts at prealloc |
| GuestPool.Pool.GrowOne | virtio_gpu/virtgpu_vram.c:416-445 | refuses past the window, and otherwise takes exactly one grow step of the machine and returns its verdict |
| GuestPool.Pool.ShrinkOne | virtio_gpu/virtgpu_vram.c:696-731 | takes exactly one shrink step of the machine and returns its verdict; EUCLEAN, and nothing else, counts as success with the step switched off |
| GuestPool.Pool.StepFree | virtio_gpu/virtgpu_vram.c:735-754 | the probe changes nothing; it says yes only when no live block touches the top step, and, for a power-of-two step, always then |
| GuestPool.Pool.Reclaim | virtio_gpu/virtgpu_vram.c:756-773 | terminates, keeps live blocks, stops at the first shrink that fails, and otherwise ends at the floor, with growing off, or below a live block; asks for a retry if and only if that failure was EBUSY, ETIMEDOUT or EIO; does nothing for a step that is no power of two |
| GuestPool.Pool.Unwind | virtio_gpu/virtgpu_vram.c:684-688 | gives back what a failed allocation grew, as Reclaim does, and states exactly when something stays |
| GuestPool.Pool.GrowToFit | virtio_gpu/virtgpu_vram.c:653-665 | grows until the request fits below the boundary, each step only while the request does not fit, or fails because the last step was refused or there is none to add |
| GuestPool.Pool.AllocLocked | virtio_gpu/virtgpu_vram.c:649-683 | terminates; every step is grown in a state in which the request does not fit; success gives exactly the bytes asked for, carved from free memory inside the boundary; it gives up only when the host refused the last step or none is left, with that error |
| GuestPool.Pool.FitAndAlloc | virtio_gpu/virtgpu_vram.c:653-670 | grows to fit and no further, then is served exactly when the prefix has room in blocks large enough |
| GuestPool.Pool.Alloc | virtio_gpu/virtgpu_vram.c:612-694 | the same for a byte size and the bound on entries; what fits below the boundary is served without growing; against a generous host it fails only if no reachable prefix has room; a failure gives back what was grown, and leaves the boundary higher if and only if, for a power-of-two step, a shrink broke or failed too early, and, for any other step, anything was grown |
| GuestPool.FitsMeansNoGrowth | virtio_gpu/virtgpu_vram.c:653-671 | an allocation whose request fits below the boundary succeeds with no event at the host and the pool unchanged |
| GuestPool.Pool.Free | virtio_gpu/virtgpu_vram.c:791-809 | exactly these blocks become free, then steps go back until one fails or none is left to give; retry if and only if the last failed with EBUSY, ETIMEDOUT or EIO; nothing at all once the pool is closed |
| GuestPool.Pool.ReclaimWork | virtio_gpu/virtgpu_vram.c:775-789 | the delayed retry keeps every live block, gives steps back until one fails or none is left to give, and asks for another retry on the same three errors |
| GuestPool.Pool.Fini | virtio_gpu/virtgpu_vram.c:559-578 | closes the gate, changes no block, and reports blocks still allocated |
| GuestPool.ProbeExact | virtio_gpu/virtgpu_vram.c:742-753 | the probe is granted if and only if the step is free when it is an aligned power of two, and never otherwise |
| GuestPool.UnusedStepsGoBack | virtio_gpu/virtgpu_vram.c:684-691 | steps grown for an allocation that failed are free again |
| LazyGrowth.RefinesFullyBackedIff | virtio_gpu/virtgpu_vram.c:649-683 | every request and every set of live blocks is served alike by the growing and the fully backed pool, if and only if the step divides the growable part |
| LazyGrowth.GrowingRefinesFullyBacked | virtio_gpu/virtgpu_vram.c:649-683 | for a power-of-two step that is always so |
| LazyGrowth.Pow2StepFillsWindow | virtio_gpu/virtgpu_vram.c:527-532 | for a power-of-two step the tests at initialisation make whole steps fill the window |
| LazyGrowth.ReachesEndIff | virtio_gpu/virtgpu_vram.c:527-532 | growing reaches the end if and only if the step divides the growable part |
| LazyGrowth.OddStepLosesTheTail | virtio_gpu/virtgpu_vram.c:522-532 | a step the tests accept that leaves 2 MiB out of reach and refuses a request the window has room for |
| LazyGrowth.OddStepKeepsWhatItGrew | virtio_gpu/virtgpu_vram.c:649-691 | that request, carried out against a host that grants everything: growing fails at 6 MiB and reclaiming leaves the boundary there |
| LazyGrowth.GrowingServesNoMore | virtio_gpu/virtgpu_vram.c:649-683 | for any step, nothing is served that a fully backed pool would refuse |
| BlockSizing.EntryBoundHoldsIff | virtio_gpu/virtgpu_vram.c:629-645 | for all inputs on which the kernel's arithmetic is defined: every block list meeting the request has at most max_nents entries, if and only if max_nents is at least two or the size is a power of two |
| BlockSizing.MinBlockShape | virtio_gpu/virtgpu_vram.c:634-638 | the minimum block size is a power of two, at least a page and at most the size |
| BlockSizing.NoClamp | virtio_gpu/virtgpu_vram.c:634-638 | with a bound of two or more the clamp never applies |
| BlockSizing.RequestShape | virtio_gpu/virtgpu_vram.c:629-645 | for every size: the size itself in pages without a bound on entries; with one, the size rounded up by less than one block, or zero when that leaves the 64-bit range |
| BlockWalks.Mmap | virtio_gpu/virtgpu_vram.c:48-148 | succeeds exactly within the object, and maps every page once, in order, to the pool address of that byte |
| BlockWalks.Stitch | virtio_gpu/virtgpu_vram.c:92-141 | the cursor walk stops short exactly when the blocks run out |
| BlockWalks.TilesHitOnce | virtio_gpu/virtgpu_vram.c:117-141 | each mapped address lies in exactly one of the remapped runs |
| BlockWalks.EntriesAgree | virtio_gpu/virtgpu_vram.c:927-940 | blocks below 4 GiB: the host finds byte i of the resource where the user mapping puts it |
| BlockWalks.EntriesCompleteIff | virtio_gpu/virtgpu_vram.c:933-939 | the entries cover the object if and only if every block is below 4 GiB |
| BlockWalks.BuildEntries | virtio_gpu/virtgpu_vram.c:927-940 | one entry for each block, in order, address and length truncated to the wire widths |
| BlockWalks.MapDma | virtio_gpu/virtgpu_vram.c:173-239 | one segment for each block in the same order and the error of the first thing that fails; a failure leaves nothing mapped if and only if the blocks mapped before it are below 4 GiB |
| BlockWalks.CarvedIsPaged | virtio_gpu/virtgpu_vram.c:634-645 | every block list the allocator returns is made of whole pages |
| VramObject.Create | virtio_gpu/virtgpu_vram.c:852-970 | success owns fresh blocks that cover the object, whatever its size, within the bound on entries, with entries to match; every failure gives all blocks back; with no other fault a generous host is refused exactly when the pool cannot hold the object |
| VramObject.Object.UnrefReply | virtio_gpu/virtgpu_vq.c:617-638 | the blocks go back once, on OK or INVALID_RESOURCE_ID, and on no other reply; then the pool shrinks as after any free |
| VramObject.Object.Release | virtio_gpu/virtgpu_vram.c:811-823 | gives the blocks back at most once, and lets the pool shrink |
| VramObject.Object.Map | virtio_gpu/virtgpu_vram.c:92-147 | for an object as created, the "mmap short" branch is unreachable |
| ResourceLife.HeldMemoryIsNeverFree | virtio_gpu/virtgpu_vq.c:617-660 | over every run, memory of a resource the host may hold is allocated and unshared, and no object returns its blocks twice |
| ResourceLife.ReturnedIffReleased | virtio_gpu/virtgpu_vq.c:617-638 | over every run, an object's blocks have gone back if and only if a reply saying the host let go was dequeued |
| ResourceLife.LiveIsOwned | virtio_gpu/virtgpu_vram.c:811-823 | over every run: allocated are the blocks others had from the start and those of objects that still own theirs, no more and no less |
| ResourceLife.BlocksAreItsOwn | virtio_gpu/virtgpu_vram.c:852-970 | an object has exactly the blocks it was created with |
| ResourceLife.CommandsInOrder | virtio_gpu/virtgpu_vq.c:617-660 | over every run the queue holds, in order, exactly the creates and unrefs sent and not yet served |
| ResourceLife.OtherReplyLeaksForever | virtio_gpu/virtgpu_vq.c:625-637 | after any other reply they stay allocated for good |
| RmWire.AcceptDecodes | gunyah_guest/gunyah_guest.c:168-209 | the RM reads sequence number, message id, handle, address and size back as they were given, and every other byte is the constant of its field: normal memory, shared, contiguous and done, no label, no ACL, one mapping, no attributes |
| RmWire.ReleaseDecodes | gunyah_guest/gunyah_guest.c:235-248 | the same for MEM_RELEASE, flags and reserved bytes zero |
| RmWire.LeRoundTrip | gunyah_guest/gunyah_guest.c:172-204 | little-endian writing and reading are inverse |
| RmWire.LeByte | gunyah_guest/gunyah_guest.c:172-204 | byte k of a field is the k-th lowest byte of the number |
| RmWire.PutLe | gunyah_guest/gunyah_guest.c:175-204 | a field is written at its offset and nothing before it changes |
| RmClient.SeqClashIff | gunyah_guest/gunyah_guest.c:168-173 | two requests carry the same 16-bit number if and only if they are a multiple of 65536 apart |
| RmClient.TakenForNextIff | gunyah_guest/gunyah_guest.c:136-145 | a genuine reply still queued is taken for the next request's if and only if it is exactly 65536 requests old |
| RmClient.StaleReplyIsTaken | gunyah_guest/gunyah_guest.c:136-145 | such a reply, byte by byte, that hands any earlier verdict to the wrong caller |
| RmClient.Client.Rpc | gunyah_guest/gunyah_guest.c:123-149 | EIO if and only if the send was refused; otherwise 0 with the code of the first message received that is the reply to this request, whatever stale replies and notifications come first; ETIMEDOUT if and only if every poll was made and none brought it; the code is the RM's verdict on this very request |
| RmClient.Client.MemAccept | gunyah_guest/gunyah_guest.c:157-222 | sends the bytes of this MEM_ACCEPT and no others; 0 or EACCES exactly when a reply to it came with a zero or non-zero code, which is the RM's verdict on it |
| RmClient.Client.MemRelease | gunyah_guest/gunyah_guest.c:224-263 | sends the bytes of this MEM_RELEASE and no others; 0 or EIO according to the code of the reply to it, ETIMEDOUT when none came |
| AcceptTable.AgreementKeptIff | gunyah_guest/gunyah_guest.c:350-395 | one request keeps table and RM in agreement if and only if no RM action went unreported |
| AcceptTable.AgreementOverRunsIff | gunyah_guest/gunyah_guest.c:397-467 | over any requests the table is the RM's accepted parcels throughout if and only if no request that asked the RM was acted on without an answer; completions answer, in order, the requests memory for one could be had for |
| AcceptTable.CompletionsTellTheTruth | gunyah_guest/gunyah_guest.c:394-456 | over any requests: a completion says 0 if and only if its request asked the RM and the RM acted and answered, the table and RM having moved accordingly; ENOENT exactly when no entry has the address, EINVAL exactly for a short buffer, an unknown operation or a zero handle or size, and each other error for one cause |
| AcceptTable.ServingTells | gunyah_guest/gunyah_guest.c:350-395 | the same for one request, with what becomes of table and RM |
| AcceptTable.ReleaseTakesOldest | gunyah_guest/gunyah_guest.c:377-395 | a release removes the oldest entry of its address and no entry of another |
| AcceptDevice.Device.DoAccept | gunyah_guest/gunyah_guest.c:350-375 | the table gains the parcel exactly when the RM accepted it, with the source's errors otherwise |
| AcceptDevice.Device.DoRelease | gunyah_guest/gunyah_guest.c:377-395 | the first entry of the address goes when the RM released it, and nothing goes on failure |
| AcceptDevice.Device.Work | gunyah_guest/gunyah_guest.c:397-467 | serves every request there or arriving meanwhile, in order: a completion each with its id where memory for it can be had, and each buffer back to the device |
| PoolQueue.CallersGetTheirOwnAnswer | gunyah_guest/gunyah_guest.c:523-585 | any answer order and any delay: each caller gets the one answer to its own request; a context is freed at most once, never while the device has it, and never touched after |
| PoolQueue.AnswerIsToTheCall | gunyah_guest/gunyah_guest.c:540-585 | over every run a caller gets back what the device answered, after that caller's submission, to the operation, pool, offset and length of that very call |
| PoolQueue.RefusedIsTold | gunyah_guest/gunyah_guest.c:550-556 | a caller whose request the ring refused gets that error, and the device never has the request |
| PoolQueue.GivenUpIsLeaked | gunyah_guest/gunyah_guest.c:559-575 | after a time-out the context stays allocated for good |
| PoolQueue.RunKeepsInv | gunyah_guest/gunyah_guest.c:492-503 | what submitting, answering, draining, waking and giving up keep |
| LockOrder.WaiterHoldsOnlyGuestPool | gunyah_guest/gunyah_guest.c:523-568 | over every run, a thread waiting for the host holds no lock, or only the guest pool's and is the allocator |
| LockOrder.AcceptingNeverWaitsForGrowing | gunyah_guest/gunyah_guest.c:397-467 | from every reachable state with a host request posted or being served, at most 25 steps of worker, completion callback and RM users complete one, whatever the callers hold |
| LockOrder.NoWaitCycle | gunyah_guest/gunyah_guest.c:509-568 | no reachable state has a cycle of threads waiting for each other, through locks or through a host that waits for this guest |
| LockOrder.NoDeadlock | gunyah_guest/gunyah_guest.c:509-568 | in every reachable state, whom a busy thread waits for leads in at most six links to one that can step or one whose request the host can move on, without any time-out |
| LockOrder.InvOverRuns | gunyah_guest/gunyah_guest.c:397-568 | over every run a lock is held by exactly the thread between taking and releasing it, and what the host asked for is queued or being served |
| Fences.FenceDriver.FenceEmit | virtio_gpu/virtgpu_fence.c:84-108 | the next number, at the end of the list |
| Fences.FenceDriver.SignalDue | virtio_gpu/virtgpu_fence.c:127-142 | the in-place inner loop signals and unlinks exactly the older fences of the timeline, in list order, and keeps the others in order |
| Fences.FenceDriver.EventProcess | virtio_gpu/virtgpu_fence.c:110-158 | the nested loops over shared cursors do what one response means, each event sent once, and nothing when the number is not pending |
| Fences.ResponseTakesOlderIff | virtio_gpu/virtgpu_fence.c:117-157 | a response removes exactly the fences of its timeline numbered no higher, if and only if the fence it names compares rightly with the others of that timeline |
| Fences.EveryFenceOnce | virtio_gpu/virtgpu_fence.c:84-158 | over every run, emitted is signalled plus pending, as multisets, and the events sent are the signalled fences' |
| Fences.EventInTurn | virtio_gpu/virtgpu_fence.c:127-142 | each signalled fence with an event has it sent, in its turn and once |
| Fences.TimelinesInOrderIff | virtio_gpu/virtgpu_fence.c:110-158 | over every run and any order of responses, every timeline is in increasing order throughout if and only if every fence reported compared rightly |
| Fences.ResponseOrderIff | virtio_gpu/virtgpu_fence.c:127-150 | one response keeps every timeline in order if and only if its fence compares rightly with those pending on its own timeline |
| Fences.WindowCompares | virtio_gpu/virtgpu_fence.c:131-133 | it does when no pending fence of its timeline is 2^31 numbers away, whatever other timelines hold |
| Fences.SomeRunBreaksOrder | virtio_gpu/virtgpu_fence.c:131-133 | a run from the empty driver in which a fence that waited 2^31 numbers is signalled after a newer one of its timeline |
| Fences.BatchInOrder | virtio_gpu/virtgpu_fence.c:127-150 | one response signals one timeline, increasing, ending with the reported fence |
| CtrlQueue.QueueOverRuns | virtio_gpu/virtgpu_vq.c:390-427 | over every interleaving: each command in one place, references conserved, descriptors never overcommitted, fence numbers increasing in ring order |
| CtrlQueue.QuietMeansSettled | virtio_gpu/virtgpu_vq.c:224-275 | no command is called back or freed twice; when all is quiet each has been, and every reference it held is dropped |
| CtrlQueue.VmallocToSgt | virtio_gpu/virtgpu_vq.c:305-341 | one segment a page; below 2 GiB the lengths are whole pages but the last and add up to the size, above they are wrong |
| CtrlDevice.ControlQueue.TryQueue | virtio_gpu/virtgpu_vq.c:392-427 | queued if and only if the descriptors are free, and otherwise nothing changes; then it is last in the ring with the next fence number, that fence is the last emitted, and the descriptors are taken |
| CtrlDevice.ControlQueue.ReclaimVbufs | virtio_gpu/virtgpu_vq.c:211-222 | takes every used command off the ring in order and frees its descriptors |
| CtrlDevice.ControlQueue.RunCallbacks | virtio_gpu/virtgpu_vq.c:243-264 | each command's fence is handed over and its callback run once, in order |
| CtrlDevice.ControlQueue.DequeueCtrl | virtio_gpu/virtgpu_vq.c:224-275 | the whole worker: the commands called back, then freed, once and in order, are exactly those that left the ring before or while it reclaims; no fence an answer names is pending afterwards, and every fence that went is named by one or older on its timeline; their arrays go on the free list |
| CtrlDevice.AnswersTake | virtio_gpu/virtgpu_vq.c:243-262 | the same over any batch of answers, from any fence list in order |
| ObjArrays.Objects.FromHandles | virtio_gpu/virtgpu_gem.c:192-213 | succeeds exactly when all handles name objects, with one reference each in order; failure leaves every count as it was |
| ObjArrays.Objects.AddObj | virtio_gpu/virtgpu_gem.c:215-223 | a full array takes neither object nor reference |
| ObjArrays.Objects.PutFree | virtio_gpu/virtgpu_gem.c:269-279 | drops exactly the references the array holds |
| ObjArrays.Objects.PutFreeDelayed | virtio_gpu/virtgpu_gem.c:281-288 | queues the array last |
| ObjArrays.Objects.PutFreeWork | virtio_gpu/virtgpu_gem.c:290-306 | whatever is queued while the lock is open, the list ends empty and each array queued by then had its references dropped once, in order |
| CapsetCache.OneRequestPerPair | virtio_gpu/virtgpu_vq.c:1029-1063 | under any interleaving at most one entry and one GET_CAPSET for each (id, version) |
| CapsetCache.OneAnswerPerPair | virtio_gpu/virtgpu_vq.c:883-906 | over every run a pair is answered at most once |
| CapsetCache.ValidIsFinal | virtio_gpu/virtgpu_vq.c:883-906 | a filled entry never changes again |
| CapsetCache.ValidHoldsOkIff | virtio_gpu/virtgpu_vq.c:883-906 | a valid entry holds, byte by byte, an OK response if and only if the one answer to its pair was OK |
| CapsetCache.ErrorIsServedAsData | virtio_gpu/virtgpu_vq.c:883-906 | a run in which the host refuses and the reader is given zeros and no error |
| CapsetCache.ReaderGetsTheResponse | virtio_gpu/virtgpu_ioctl.c:396-465 | what a reader copies is, byte by byte, the start of the response to its own pair's request, padded with zeros: as much as that reader asked for, or all the set holds if it asked for more |
| CapsetCache.WantIsAsked | virtio_gpu/virtgpu_ioctl.c:408-447 | over every run a reader wants what it asked for in its own lookup, bounded by the size of the set |
| CapsetCache.CopyKeeps | virtio_gpu/virtgpu_ioctl.c:432-461 | a copy out of a filled entry never runs past its end |
| CapsetCache.StepKeepsInv | virtio_gpu/virtgpu_vq.c:991-1065 | what looking up, adding, asking, answering, copying and timing out keep |
| CapsetCache.Driver.GetCaps | virtio_gpu/virtgpu_ioctl.c:408-447 | the search loops find the first set offering the version, then the pair's entry |
| CapsetCache.Driver.AddOrFind | virtio_gpu/virtgpu_vq.c:1005-1048 | looks again under the lock; adds an entry, empty and invalid, only if there is none |
| CapsetCache.Driver.CapsetCb | virtio_gpu/virtgpu_vq.c:883-906 | fills the pair's entry with the response byte by byte, zeros behind it, and touches no other |
| CapsetCache.Driver.CopyOut | virtio_gpu/virtgpu_ioctl.c:447-465 | copies the first bytes of a filled entry, as many as wanted; EBUSY if it is not filled in time |
| SyncObjs.Submission.ParseDeps | virtio_gpu/virtgpu_submit.c:88-159 | the first failing descriptor decides the error and leaves no reference behind; success holds one for each object to reset |
| SyncObjs.Submission.ParsePostDeps | virtio_gpu/virtgpu_submit.c:186-247 | the same for objects and chain nodes, including the node of the descriptor that failed |
| SyncObjs.Submission.ProcessPostDeps | virtio_gpu/virtgpu_submit.c:249-270 | each object gets the out-fence at its point or replaced, in order; nodes handed over are forgotten, none is lost |
| SyncObjs.Submission.Cleanup | virtio_gpu/virtgpu_submit.c:329-333 | resets, then gives back exactly what is still held |
| SyncObjs.Submission.Exec | virtio_gpu/virtgpu_submit.c:473-542 | on every path references and nodes end where they began, and on success one node is given away for each out-descriptor with a point; the error is the first one, and which objects are signalled and reset is exact |
| SyncObjs.ResetIff | virtio_gpu/virtgpu_submit.c:161-171 | an object is reset if and only if every descriptor parsed and one with RESET names it |
| SyncObjs.ParsesIff | virtio_gpu/virtgpu_submit.c:88-247 | parsing gets through if and only if every descriptor of both lists is sound; otherwise the out-objects' error comes first |
| SyncObjs.FirstFailing | virtio_gpu/virtgpu_submit.c:109-234 | a failing list reports the error of its first descriptor that fails, each error for one cause |
| SyncObjs.OutOpAt | virtio_gpu/virtgpu_submit.c:249-270 | descriptor k of the out-list gets a timeline point on the object it names, or the fence in place of the old one if its point is zero |
| SyncObjs.HeldCounts | virtio_gpu/virtgpu_submit.c:67-78 | slots hold one reference for each time they name an object |
| SyncObjs.ClearAt | virtio_gpu/virtgpu_submit.c:259-263 | clearing a slot's node takes just that node out of what cleanup owes |
| Arith.MaskIsRemainder | virtio_gpu/virtgpu_vram.c:527-528 | the mask test is divisibility for a power of two |

## Left out

- ObjArrays.Objects.PutFreeWork: arrays queued for the worker are modelled by their contents, so freeing the array structure itself is not modelled.
- SyncObjs.Submission.Exec: syncobj and post-dependency arrays are sequences built slot by slot, so the zeroed tail of the allocated arrays and freeing the arrays themselves are not modelled; the buffer, the object list and the out-fence file descriptor are summed up in the outcomes of the surrounding steps.
- AcceptDevice.Device.Work: a completion or a recycled buffer that the ring refuses is not modelled.
- GuestPool.Pool.Alloc: with a bound on entries, sizes within a page of 2^64 are excluded: they wrap to zero and the kernel's rounding of zero to a power of two is undefined. The ENODEV answer when the pool closes between the unlocked and the locked test of the ready flag is not modelled.
- VramObject.Create: the create command itself is part of ResourceLife.
- BlockSizing.EntryBoundHoldsIff: excluded are only inputs on which the division wraps or the power of two has no 64-bit value, where the kernel's result is undefined.
- BlockWalks.Mmap: only the branch for guest-pool objects; the flag tests, cache attributes and a failing io_remap_pfn_range are left out.
- LockOrder.AcceptingNeverWaitsForGrowing: a completion lost because its allocation or the ring add fails is not modelled; the host would then time out.
- AcceptDevice.ResourceManager.MemAccept: the RM's answer is a fate picked freely, of which RmClient.Client.MemAccept is the finer account; the two are not composed, since the client needs the assumption about stale replies afresh at every call.
- CtrlDevice.ControlQueue.TryQueue: waiting for free descriptors is one refused try after another, with any steps of the machine in between; that a waiter is woken in the end is not shown. A failed virtqueue_add_sgs (indirect descriptors out of memory) is not modelled.
- CapsetCache.Driver.AddOrFind: freeing the unused buffers of the loser is not modelled.
- PoolHost.HostPool.Share: a SHARE served after the guest gave up is an event of the machine and of its theorems, not something the class does between two calls.
- PoolHost.HostPool.QueryRange: the class answers fairly, as the assumptions say; unfair answers are steps of PoolMachine, where StepSafeIff says what they break.
- PoolHost.HostPool.Unshare: an UNSHARE served after both it and its query timed out is modelled as acting at once, its reply lost and the query unanswered, which is the earlier and therefore the worse case.
- The answers ENODEV and ENOMEM that a pool request gets before it has a context.
- Fence numbers and the model's counts do not wrap at 64 bits.
- Device unplug (-ENODEV in the control queue), concurrent unbind with requests in flight, and runtime changes of guest_pool_max_nents.
- Known leaks that the source accepts: the early -ENOMEM in queue_fenced_ctrl_buffer, the object array on -ENODEV, the file descriptor when a fence event cannot be created.
- The scheduling of delayed work and its flags, the pool statistics, and the freeing of the host mapping in virtio_gpu_vram_free.
- Failure of io_remap_pfn_range, cache attributes, page protection, real DMA mapping, copying to and from user space beyond whether it works.
- Device tree parsing, hypercall encodings, module and device probing, PCI quirks, tracing.
- Display, planes, cursor, EDID, debugfs, drm_panic, flag validation and format translation: one reading of a branch settles each.
