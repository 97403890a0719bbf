// Growing a pool waits for the host, and the host may be waiting for this guest to accept memory. Each
// thread involved runs a small program of lock, queue and wait steps, over one table of lock holders.
module LockOrder {

  // guest_pool_lock, vga_singleton_lock, pool_lock, gg_lock and comp_lock.
  datatype Lock = GuestPool | Singleton | PoolQueue | Rm | Comp

  // Post: queue a pool request. Await: until it is answered or the wait times out. Take: the oldest
  // request of the host. Complete: hand its completion to the host. Work: anything that never blocks.
  datatype Act = Acquire(l: Lock) | Release(l: Lock) | Post | Await | Take | Complete | Work

  // Allocator: whoever grows or shrinks the guest pool. Requester: any other user of the pool queue.
  // RmUser: any other user of the RM client. Reaper: the callback that frees used completions.
  datatype Role = Allocator | Requester | RmUser | Worker | Reaper

  function Length(r: Role): nat {
    match r case Allocator => 9 case Requester => 7 case Worker => 8 case _ => 3
  }

  // The steps of each program, by position.
  function Code(r: Role, pc: nat): Act {
    match r
    case Allocator =>
      (match pc case 0 => Acquire(GuestPool) case 1 => Acquire(Singleton) case 2 => Release(Singleton)
                case 3 => Acquire(PoolQueue) case 4 => Post case 5 => Release(PoolQueue) case 6 => Await
                case 7 => Release(GuestPool) case 8 => Release(PoolQueue) case _ => Work)
    case Requester =>
      (match pc case 0 => Acquire(Singleton) case 1 => Release(Singleton) case 2 => Acquire(PoolQueue) case 3 => Post
                case 4 => Release(PoolQueue) case 5 => Await case 6 => Release(PoolQueue) case _ => Work)
    case RmUser => (match pc case 0 => Acquire(Rm) case 2 => Release(Rm) case _ => Work)
    case Worker =>
      (match pc case 0 => Take case 1 => Acquire(Rm) case 3 => Release(Rm) case 4 => Acquire(Comp) case 5 => Complete
                case 6 => Release(Comp) case _ => Work)
    case Reaper => (match pc case 0 => Acquire(Comp) case 2 => Release(Comp) case _ => Work)
  }

  // Where a program may go on. An allocator may need no request, or several, and any request may fail
  // before it is queued; the worker skips the RM for a request it refuses.
  function Next(r: Role, pc: nat): set<nat> {
    match r
    case Allocator =>
      if pc == 0 then {1, 7} else if pc == 2 then {1, 3, 7} else if pc == 3 then {4, 8}
      else if pc == 6 || pc == 8 then {1, 7} else if pc == 7 then {0} else {pc + 1}
    case Requester =>
      if pc == 1 then {0, 2} else if pc == 2 then {3, 6} else if pc == 5 || pc == 6 then {0} else {pc + 1}
    case Worker => if pc == 0 then {1, 4} else if pc == 7 then {0} else {pc + 1}
    case _ => if pc == 2 then {0} else {pc + 1}
  }

  datatype Thread = Thread(role: Role, pc: nat)

  // What the host has done about a pool request: nothing yet; asked this guest to accept or release
  // memory for it; all it needs to answer.
  datatype Stage = Fresh | Asking | Ready

  // A request of the host: for the sake of a pool request, or of anything else.
  datatype Req = For(id: nat) | Other

  datatype State = State(
    threads: map<nat, Thread>,
    holder: map<Lock, nat>,
    waiting: map<nat, nat>,       // the last request each thread has queued
    stage: map<nat, Stage>,       // the host's side of the requests it has not answered
    woken: set<nat>,
    requests: seq<Req>,           // posted by the host, not yet taken
    serving: Req,
    completed: nat,
    nextId: nat)

  const WORKER: nat := 0
  const REAPER: nat := 1

  function ActOf(th: Thread): Act { Code(th.role, th.pc) }

  predicate CanStep(s: State, t: nat) {
    t in s.threads &&
    match ActOf(s.threads[t])
    case Acquire(l) => l !in s.holder
    case Await => t in s.woken
    case Take => s.requests != []
    case _ => true
  }

  function Served(s: State): map<nat, Stage> {
    if s.serving.For? && s.serving.id in s.stage && s.stage[s.serving.id] == Asking
    then s.stage[s.serving.id := Ready]
    else s.stage
  }

  function HolderAfter(holder: map<Lock, nat>, act: Act, t: nat): map<Lock, nat> {
    match act
    case Acquire(l) => holder[l := t]
    case Release(l) => holder - {l}
    case _ => holder
  }

  // Thread t takes its step and goes on at pc.
  function Step(s: State, t: nat, pc: nat): State
    requires CanStep(s, t)
  {
    var s' := s.(threads := s.threads[t := s.threads[t].(pc := pc)],
                 holder := HolderAfter(s.holder, ActOf(s.threads[t]), t));
    match ActOf(s.threads[t])
    case Post =>
      s'.(waiting := s.waiting[t := s.nextId], stage := s.stage[s.nextId := Fresh], woken := s.woken - {t},
          nextId := s.nextId + 1)
    case Await => s'.(woken := s.woken - {t})
    case Take => s'.(serving := s.requests[0], requests := s.requests[1..])
    case Complete => s'.(stage := Served(s), completed := s.completed + 1)
    case _ => s'
  }

  datatype HostEvent = Ask(id: nat) | Manage(id: nat) | Answer(id: nat) | PostOther | TimeOut(t: nat)

  predicate HostCan(s: State, e: HostEvent) {
    match e
    case Ask(id) => id in s.stage && s.stage[id] == Fresh
    case Manage(id) => id in s.stage && s.stage[id] == Fresh
    case Answer(id) => id in s.stage && s.stage[id] == Ready
    case PostOther => true
    case TimeOut(t) => t in s.threads && ActOf(s.threads[t]) == Await
  }

  // The host asks for memory to be accepted, or does without, or answers; a wait may also run out.
  function HostStep(s: State, e: HostEvent): State {
    match e
    case Ask(id) => s.(stage := s.stage[id := Asking], requests := s.requests + [For(id)])
    case Manage(id) => s.(stage := s.stage[id := Ready])
    case Answer(id) => s.(stage := s.stage - {id}, woken := s.woken + set t | t in s.waiting && s.waiting[t] == id :: t)
    case PostOther => s.(requests := s.requests + [Other])
    case TimeOut(t) => s.(woken := s.woken + {t})
  }

  // ----- what every step keeps -----

  // The locks a program holds before each of its steps.
  function Held(th: Thread): set<Lock> {
    match th.role
    case Allocator =>
      if th.pc == 0 then {} else if th.pc == 2 then {GuestPool, Singleton}
      else if th.pc in {4, 5, 8} then {GuestPool, PoolQueue} else {GuestPool}
    case Requester => if th.pc == 1 then {Singleton} else if th.pc in {3, 4, 6} then {PoolQueue} else {}
    case RmUser => if th.pc == 0 then {} else {Rm}
    case Worker => if th.pc in {2, 3} then {Rm} else if th.pc in {5, 6} then {Comp} else {}
    case Reaper => if th.pc == 0 then {} else {Comp}
  }

  // From queueing a request to the end of the wait for it.
  predicate Queued(th: Thread) {
    (th.role == Allocator && th.pc in {5, 6}) || (th.role == Requester && th.pc in {4, 5})
  }

  predicate Serving(th: Thread) { 1 <= th.pc <= 5 }

  ghost predicate Cast(s: State) {
    && WORKER in s.threads && REAPER in s.threads
    && (forall t | t in s.threads :: s.threads[t].pc < Length(s.threads[t].role))
    && (forall t | t in s.threads ::
          (s.threads[t].role == Worker <==> t == WORKER) && (s.threads[t].role == Reaper <==> t == REAPER))
  }

  // A lock is held by exactly the thread whose program is between taking and releasing it.
  predicate HolderRight(s: State, l: Lock, t: nat) {
    (l in s.holder && s.holder[l] == t) <==> (t in s.threads && l in Held(s.threads[t]))
  }

  ghost predicate HoldersRight(s: State) { forall l: Lock, t: nat :: HolderRight(s, l, t) }

  // Who waits unanswered has a request at the host.
  ghost predicate WaitersRight(s: State) {
    forall t | t in s.threads && Queued(s.threads[t]) && t !in s.woken :: t in s.waiting && s.waiting[t] in s.stage
  }

  // Whatever the host has asked for is in the queue or in the worker's hands.
  ghost predicate AskedRight(s: State) {
    forall id | id in s.stage && s.stage[id] == Asking ::
      For(id) in s.requests || (WORKER in s.threads && Serving(s.threads[WORKER]) && s.serving == For(id))
  }

  ghost predicate IdsRight(s: State) {
    && (forall t | t in s.waiting :: s.waiting[t] < s.nextId)
    && (forall id | id in s.stage :: id < s.nextId)
  }

  ghost predicate RequestsRight(s: State) { WaitersRight(s) && AskedRight(s) && IdsRight(s) }

  ghost predicate Inv(s: State) { Cast(s) && HoldersRight(s) && RequestsRight(s) }

  lemma HeldFollows(r: Role, pc: nat, next: nat)
    requires pc < Length(r) && next in Next(r, pc)
    ensures next < Length(r)
    ensures var h, h' := Held(Thread(r, pc)), Held(Thread(r, next));
            match Code(r, pc)
            case Acquire(l) => l !in h && h' == h + {l}
            case Release(l) => l in h && h' == h - {l}
            case _ => h' == h
  {}

  lemma StepCast(s: State, t: nat, pc: nat)
    requires Cast(s) && CanStep(s, t) && pc in Next(s.threads[t].role, s.threads[t].pc)
    ensures Cast(Step(s, t, pc)) && Step(s, t, pc).threads == s.threads[t := s.threads[t].(pc := pc)]
    ensures Step(s, t, pc).holder == HolderAfter(s.holder, ActOf(s.threads[t]), t)
  {
    HeldFollows(s.threads[t].role, s.threads[t].pc, pc);
  }

  lemma HolderFollows(holder: map<Lock, nat>, th: Thread, next: nat, t: nat, l: Lock)
    requires th.pc < Length(th.role) && next in Next(th.role, th.pc)
    requires (l in holder && holder[l] == t) <==> l in Held(th)
    requires ActOf(th).Acquire? ==> ActOf(th).l !in holder
    ensures var after := HolderAfter(holder, ActOf(th), t);
            (l in after && after[l] == t) <==> l in Held(th.(pc := next))
  {
    HeldFollows(th.role, th.pc, next);
  }

  // Another thread's locks stay as they are.
  lemma HolderElsewhere(holder: map<Lock, nat>, th: Thread, t: nat, l: Lock, u: nat)
    requires u != t && (ActOf(th).Acquire? ==> ActOf(th).l !in holder)
    requires ActOf(th).Release? ==> ActOf(th).l in holder && holder[ActOf(th).l] == t
    ensures var after := HolderAfter(holder, ActOf(th), t);
            (l in after && after[l] == u) <==> (l in holder && holder[l] == u)
  {}

  lemma StepHolder(s: State, t: nat, pc: nat, l: Lock, u: nat)
    requires Cast(s) && HoldersRight(s) && CanStep(s, t) && pc in Next(s.threads[t].role, s.threads[t].pc)
    ensures HolderRight(Step(s, t, pc), l, u)
  {
    var th := s.threads[t];
    StepCast(s, t, pc);
    assert HolderRight(s, l, u) && HolderRight(s, l, t);
    if u == t {
      HolderFollows(s.holder, th, pc, t, l);
    } else {
      HeldFollows(th.role, th.pc, pc);
      if ActOf(th).Release? { assert HolderRight(s, ActOf(th).l, t); }
      HolderElsewhere(s.holder, th, t, l, u);
    }
  }

  lemma StepHolders(s: State, t: nat, pc: nat)
    requires Cast(s) && HoldersRight(s) && CanStep(s, t) && pc in Next(s.threads[t].role, s.threads[t].pc)
    ensures HoldersRight(Step(s, t, pc))
  {
    forall l: Lock, u: nat ensures HolderRight(Step(s, t, pc), l, u) {
      StepHolder(s, t, pc, l, u);
    }
  }

  lemma StepWaiters(s: State, t: nat, pc: nat)
    requires Cast(s) && WaitersRight(s) && CanStep(s, t) && pc in Next(s.threads[t].role, s.threads[t].pc)
    ensures WaitersRight(Step(s, t, pc))
  {}

  lemma StepAsked(s: State, t: nat, pc: nat)
    requires Cast(s) && AskedRight(s) && IdsRight(s) && CanStep(s, t) && pc in Next(s.threads[t].role, s.threads[t].pc)
    ensures AskedRight(Step(s, t, pc)) && IdsRight(Step(s, t, pc))
  {
    match ActOf(s.threads[t])
    case Take => assert forall r :: r in s.requests <==> r == s.requests[0] || r in s.requests[1..];
    case _ =>
  }

  lemma StepKeeps(s: State, t: nat, pc: nat)
    requires Inv(s) && CanStep(s, t) && pc in Next(s.threads[t].role, s.threads[t].pc)
    ensures Inv(Step(s, t, pc))
  {
    StepCast(s, t, pc);
    StepHolders(s, t, pc);
    StepWaiters(s, t, pc);
    StepAsked(s, t, pc);
  }

  lemma HostKeeps(s: State, e: HostEvent)
    requires Inv(s) && HostCan(s, e)
    ensures Inv(HostStep(s, e))
  {
    assert Cast(HostStep(s, e));
    HostHolders(s, e);
    HostWaiters(s, e);
    HostAsked(s, e);
  }

  lemma HostHolders(s: State, e: HostEvent)
    requires HoldersRight(s) && HostCan(s, e)
    ensures HoldersRight(HostStep(s, e))
  {
    var s' := HostStep(s, e);
    assert s'.holder == s.holder && s'.threads == s.threads;
    forall l: Lock, t: nat ensures HolderRight(s', l, t) {
      assert HolderRight(s, l, t);
    }
  }

  lemma HostWaiters(s: State, e: HostEvent)
    requires Cast(s) && WaitersRight(s) && HostCan(s, e)
    ensures WaitersRight(HostStep(s, e))
  {}

  lemma HostAsked(s: State, e: HostEvent)
    requires AskedRight(s) && IdsRight(s) && HostCan(s, e)
    ensures AskedRight(HostStep(s, e)) && IdsRight(HostStep(s, e))
  {}

  // ----- runs -----

  ghost predicate Moves(s: State, s': State) {
    || (exists t: nat, pc: nat ::
          CanStep(s, t) && pc in Next(s.threads[t].role, s.threads[t].pc) && s' == Step(s, t, pc))
    || (exists e: HostEvent :: HostCan(s, e) && s' == HostStep(s, e))
  }

  ghost predicate Run(ss: seq<State>) {
    && |ss| > 0 && Cast(ss[0]) && (forall t | t in ss[0].threads :: ss[0].threads[t].pc == 0)
    && ss[0].holder == map[] && ss[0].stage == map[] && ss[0].waiting == map[] && ss[0].requests == []
    && forall i | 0 <= i < |ss| - 1 :: Moves(ss[i], ss[i + 1])
  }

  lemma {:induction false} InvOverRuns(ss: seq<State>, i: nat)
    requires Run(ss) && i < |ss|
    ensures Inv(ss[i])
  {
    if i > 0 {
      InvOverRuns(ss, i - 1);
      var s, s' := ss[i - 1], ss[i];
      assert Moves(s, s');
      if t: nat, pc: nat :| CanStep(s, t) && pc in Next(s.threads[t].role, s.threads[t].pc) && s' == Step(s, t, pc) {
        StepKeeps(s, t, pc);
      } else {
        var e :| HostCan(s, e) && s' == HostStep(s, e);
        HostKeeps(s, e);
      }
    }
  }

  // Over every run: a thread waiting for the host holds no lock but, in the allocator, the guest pool's.
  lemma WaiterHoldsOnlyGuestPool(ss: seq<State>, i: nat, t: nat, l: Lock)
    requires Run(ss) && i < |ss| && t in ss[i].threads && ActOf(ss[i].threads[t]) == Await
    requires l in ss[i].holder && ss[i].holder[l] == t
    ensures l == GuestPool && ss[i].threads[t].role == Allocator
  {
    InvOverRuns(ss, i);
    assert HolderRight(ss[i], l, t);
  }

  // ----- who waits for whom -----

  // t cannot go on before u does: u holds the lock t wants, or t's request is one the host has handed
  // to this guest's worker.
  ghost predicate WaitsFor(s: State, t: nat, u: nat) {
    t in s.threads && u in s.threads &&
    match ActOf(s.threads[t])
    case Acquire(l) => l in s.holder && s.holder[l] == u
    case Await =>
      && t !in s.woken && u == WORKER
      && t in s.waiting && s.waiting[t] in s.stage && s.stage[s.waiting[t]] == Asking
    case _ => false
  }

  // The host can move on the request t waits for.
  ghost predicate HostOwes(s: State, t: nat) {
    && t in s.threads && ActOf(s.threads[t]) == Await && t in s.waiting
    && s.waiting[t] in s.stage && s.stage[s.waiting[t]] != Asking
  }

  function Level(th: Thread): nat {
    match ActOf(th)
    case Acquire(l) =>
      (match l case GuestPool => 0 case Singleton => 1 case PoolQueue => 2 case Rm => 4 case Comp => 5)
    case Await => 3
    case _ => 6
  }

  lemma WaitingRises(s: State, t: nat, u: nat)
    requires Inv(s) && WaitsFor(s, t, u)
    ensures Level(s.threads[t]) < Level(s.threads[u])
  {
    if ActOf(s.threads[t]).Acquire? {
      assert HolderRight(s, ActOf(s.threads[t]).l, u);
    }
  }

  // No run ever reaches a state with a cycle of threads waiting for each other, through locks or
  // through the host.
  lemma NoWaitCycle(ss: seq<State>, i: nat, ts: seq<nat>)
    requires Run(ss) && i < |ss| && |ts| > 1
    requires forall k | 0 <= k < |ts| - 1 :: WaitsFor(ss[i], ts[k], ts[k + 1])
    ensures ts[0] != ts[|ts| - 1]
  {
    InvOverRuns(ss, i);
    PathRises(ss[i], ts);
  }

  lemma {:induction false} PathRises(s: State, ts: seq<nat>)
    requires Inv(s) && |ts| > 1
    requires forall k | 0 <= k < |ts| - 1 :: WaitsFor(s, ts[k], ts[k + 1])
    ensures ts[0] in s.threads && ts[|ts| - 1] in s.threads
    ensures Level(s.threads[ts[0]]) < Level(s.threads[ts[|ts| - 1]])
  {
    var n := |ts| - 1;
    assert WaitsFor(s, ts[n - 1], ts[n]);
    WaitingRises(s, ts[n - 1], ts[n]);
    if n > 1 { PathRises(s, ts[..n]); }
  }

  // Is t in the middle of something, or does it have something to do?
  predicate Busy(s: State, t: nat) {
    t in s.threads && (s.threads[t].role != Worker || s.threads[t].pc != 0 || s.requests != [])
  }

  // No deadlock: from every busy thread, following whom it waits for leads to a thread that can take
  // its next step, or to one whose request the host can move on. No wait needs to time out.
  lemma {:induction false} Unblocks(s: State, t: nat) returns (ts: seq<nat>)
    requires Inv(s) && Busy(s, t)
    ensures 0 < |ts| <= 7 - Level(s.threads[t]) && ts[0] == t
    ensures forall k | 0 <= k < |ts| - 1 :: WaitsFor(s, ts[k], ts[k + 1])
    ensures CanStep(s, ts[|ts| - 1]) || HostOwes(s, ts[|ts| - 1])
    decreases 6 - Level(s.threads[t])
  {
    if CanStep(s, t) || HostOwes(s, t) { return [t]; }
    var u := WORKER;
    if ActOf(s.threads[t]).Acquire? {
      u := s.holder[ActOf(s.threads[t]).l];
      assert HolderRight(s, ActOf(s.threads[t]).l, u);
    }
    assert WaitsFor(s, t, u);
    WaitingRises(s, t, u);
    var rest := Unblocks(s, u);
    ts := [t] + rest;
  }

  lemma NoDeadlock(ss: seq<State>, i: nat, t: nat) returns (ts: seq<nat>)
    requires Run(ss) && i < |ss| && Busy(ss[i], t)
    ensures 0 < |ts| <= 7 && ts[0] == t
    ensures forall k | 0 <= k < |ts| - 1 :: WaitsFor(ss[i], ts[k], ts[k + 1])
    ensures CanStep(ss[i], ts[|ts| - 1]) || HostOwes(ss[i], ts[|ts| - 1])
  {
    InvOverRuns(ss, i);
    ts := Unblocks(ss[i], t);
  }

  // ----- accepting goes on while callers wait -----

  // The host has posted a request, or the worker is serving one.
  predicate Pending(s: State) { WORKER in s.threads && (s.requests != [] || Serving(s.threads[WORKER])) }

  // The worker's steps until it completes a request, weighted so that they pay for the steps of
  // another that holds the lock it wants.
  function WorkerLeft(pc: nat): nat { if pc < 6 then 3 * (6 - pc) else if pc == 6 then 24 else 21 }

  // What the holder of the lock the worker wants still has to do.
  function Delay(s: State): nat
    requires WORKER in s.threads
  {
    match ActOf(s.threads[WORKER])
    case Acquire(l) =>
      if l in s.holder && s.holder[l] in s.threads && 1 <= s.threads[s.holder[l]].pc < 3
      then 3 - s.threads[s.holder[l]].pc
      else 0
    case _ => 0
  }

  function ServeLeft(s: State): nat
    requires WORKER in s.threads
  {
    WorkerLeft(s.threads[WORKER].pc) + Delay(s)
  }

  // The accepting side: the worker, the completion callback, and other users of the RM.
  predicate Accepting(s: State, t: nat) {
    t in s.threads && s.threads[t].role in {Role.Worker, Role.Reaper, Role.RmUser}
  }

  ghost predicate AcceptStep(s: State, s': State) {
    exists t: nat, pc: nat ::
      Accepting(s, t) && CanStep(s, t) && pc in Next(s.threads[t].role, s.threads[t].pc) && s' == Step(s, t, pc)
  }

  function Onward(pc: nat): nat { if pc == 7 then 0 else pc + 1 }

  // A worker that can step is one step nearer to completing.
  lemma WorkerServes(s: State) returns (s': State)
    requires Inv(s) && Pending(s) && CanStep(s, WORKER)
    ensures Inv(s') && AcceptStep(s, s')
    ensures || s'.completed == s.completed + 1
            || (s'.completed == s.completed && Pending(s') && ServeLeft(s') < ServeLeft(s))
  {
    var pc := Onward(s.threads[WORKER].pc);
    StepKeeps(s, WORKER, pc);
    s' := Step(s, WORKER, pc);
    assert Accepting(s, WORKER) && pc in Next(s.threads[WORKER].role, s.threads[WORKER].pc);
    WorkerNearer(s);
  }

  lemma WorkerNearer(s: State)
    requires Cast(s) && Pending(s) && CanStep(s, WORKER)
    ensures var w := s.threads[WORKER]; var s' := Step(s, WORKER, Onward(w.pc));
            if w.pc == 5 then s'.completed == s.completed + 1
            else s'.completed == s.completed && Pending(s') && ServeLeft(s') < ServeLeft(s)
  {
    assert Delay(s) == 0;
  }

  // One that wants a lock waits for another of the accepting side, and that one can step.
  lemma HolderServes(s: State) returns (s': State)
    requires Inv(s) && Pending(s) && !CanStep(s, WORKER)
    ensures Inv(s') && AcceptStep(s, s')
    ensures s'.completed == s.completed && Pending(s') && ServeLeft(s') < ServeLeft(s)
  {
    var l := ActOf(s.threads[WORKER]).l;
    var t := s.holder[l];
    assert HolderRight(s, l, t);
    var th := s.threads[t];
    assert th.role in {Role.Reaper, Role.RmUser} && th.pc in {1, 2};
    var pc: nat := if th.pc == 2 then 0 else 2;
    StepKeeps(s, t, pc);
    s' := Step(s, t, pc);
    assert Accepting(s, t) && CanStep(s, t) && pc in Next(th.role, th.pc);
  }

  ghost predicate AcceptRun(ss: seq<State>) {
    |ss| > 0 && forall i | 0 <= i < |ss| - 1 :: AcceptStep(ss[i], ss[i + 1])
  }

  lemma {:induction false} ServeRun(s: State) returns (ss: seq<State>)
    requires Inv(s) && Pending(s)
    ensures AcceptRun(ss) && ss[0] == s && ss[|ss| - 1].completed == s.completed + 1
    ensures |ss| <= ServeLeft(s) + 2
    decreases ServeLeft(s)
  {
    var s';
    if CanStep(s, WORKER) { s' := WorkerServes(s); } else { s' := HolderServes(s); }
    if s'.completed == s.completed + 1 {
      ss := [s, s'];
    } else {
      var rest := ServeRun(s');
      ss := [s] + rest;
    }
  }

  // From every reachable state with a request of the host posted or being served, at most 25 steps of
  // the accepting side alone complete one: no caller, whatever it holds or waits for, has to move.
  lemma AcceptingNeverWaitsForGrowing(ss: seq<State>, i: nat) returns (more: seq<State>)
    requires Run(ss) && i < |ss| && Pending(ss[i])
    ensures AcceptRun(more) && more[0] == ss[i] && |more| <= 26
    ensures more[|more| - 1].completed == ss[i].completed + 1
  {
    InvOverRuns(ss, i);
    more := ServeRun(ss[i]);
  }
}
