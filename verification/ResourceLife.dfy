// The life of guest-pool resources across driver and host: commands travel down an in-order control
// queue, replies to RESOURCE_UNREF come back, and only some replies release the blocks.
module ResourceLife {
  import opened Blocks

  datatype Cmd = CreateBlob(id: nat) | Unref(id: nat)
  datatype Verdict = OkNoData | InvalidResourceId | OtherError
  datatype Reply = Reply(id: nat, verdict: Verdict)

  // The driver's object: InUse until its last reference goes, Dying until the reply, then Gone.
  datatype Phase = InUse | Dying | Gone
  datatype Obj = Obj(blocks: seq<Block>, owned: bool, phase: Phase)

  // live: blocks taken from the allocator. held: resources the host has. returned: one entry for each
  // time an object's blocks went back.
  datatype State = State(
    live: set<Block>, objs: map<nat, Obj>, queue: seq<Cmd>, held: set<nat>, replies: seq<Reply>, returned: seq<nat>)

  datatype Event =
    | Create(id: nat, got: seq<Block>)
    | CreateFails(got: seq<Block>)
    | LastPut(id: nat)
    | HostCreate(accepts: bool)
    | HostUnref(verdict: Verdict, drops: bool)
    | Dequeue(i: nat)

  ghost predicate Enabled(s: State, e: Event) {
    match e
    case Create(id, got) => id !in s.objs && Fresh(s.live, got) && forall b | b in got :: b.len > 0
    case CreateFails(got) => Fresh(s.live, got) && forall b | b in got :: b.len > 0
    case LastPut(id) => id in s.objs && s.objs[id].phase == InUse
    case HostCreate(_) => s.queue != [] && s.queue[0].CreateBlob?
    // OK means dropped; INVALID_RESOURCE_ID means the host has no such resource.
    case HostUnref(v, drops) =>
      && s.queue != [] && s.queue[0].Unref?
      && (v == OkNoData ==> drops)
      && (v == InvalidResourceId ==> s.queue[0].id !in s.held)
    case Dequeue(i) => i < |s.replies|
  }

  // virtio_gpu_cmd_unref_cb: give the blocks back on two of the verdicts, drop the object on all.
  function UnrefDone(s: State, r: Reply): State
    requires r.id in s.objs
  {
    var o := s.objs[r.id];
    if (r.verdict == OkNoData || r.verdict == InvalidResourceId) && o.owned
    then s.(live := s.live - BlockSet(o.blocks),
            objs := s.objs[r.id := o.(owned := false, phase := Gone)],
            returned := s.returned + [r.id])
    else s.(objs := s.objs[r.id := o.(phase := Gone)])
  }

  ghost function Apply(s: State, e: Event): State {
    match e
    case Create(id, got) =>
      s.(live := s.live + BlockSet(got), objs := s.objs[id := Obj(got, true, InUse)],
         queue := s.queue + [CreateBlob(id)])
    case CreateFails(got) =>
      s.(live := (s.live + BlockSet(got)) - BlockSet(got))
    case LastPut(id) =>
      if id !in s.objs then s
      else s.(objs := s.objs[id := s.objs[id].(phase := Dying)], queue := s.queue + [Unref(id)])
    case HostCreate(accepts) =>
      if s.queue == [] then s
      else s.(queue := s.queue[1..], held := if accepts then s.held + {s.queue[0].id} else s.held)
    case HostUnref(v, drops) =>
      if s.queue == [] then s
      else s.(queue := s.queue[1..], held := if drops then s.held - {s.queue[0].id} else s.held,
              replies := s.replies + [Reply(s.queue[0].id, v)])
    case Dequeue(i) =>
      if i >= |s.replies| || s.replies[i].id !in s.objs then s
      else UnrefDone(s.(replies := s.replies[..i] + s.replies[i + 1..]), s.replies[i])
  }

  ghost predicate Init(s: State) {
    s.objs == map[] && s.queue == [] && s.held == {} && s.replies == [] && s.returned == []
  }

  ghost function After(s: State, es: seq<Event>): State
    decreases |es|
  {
    if es == [] then s else Apply(After(s, es[..|es| - 1]), es[|es| - 1])
  }

  ghost predicate IsRun(s: State, es: seq<Event>) {
    forall i | 0 <= i < |es| :: Enabled(After(s, es[..i]), es[i])
  }

  // The host has the resource, or will be told to create it.
  ghost predicate MayHold(s: State, id: nat) {
    id in s.held || CreateBlob(id) in s.queue
  }

  ghost predicate UnrefUnderway(s: State, id: nat) {
    Unref(id) in s.queue || exists r | r in s.replies :: r.id == id
  }

  // Blocks of one owner are live, and apart from those of every other.
  ghost predicate Ownership(s: State) {
    && (forall id | id in s.objs && s.objs[id].owned :: BlockSet(s.objs[id].blocks) <= s.live)
    && (forall id, id' | id in s.objs && id' in s.objs && id != id' && s.objs[id].owned && s.objs[id'].owned ::
          BlockSet(s.objs[id].blocks) !! BlockSet(s.objs[id'].blocks))
  }

  // A resource the host may hold still owns its blocks; a releasing reply means it no longer does.
  ghost predicate Custody(s: State) {
    && (forall id | MayHold(s, id) :: id in s.objs && s.objs[id].owned)
    && (forall r | r in s.replies && r.verdict != OtherError :: !MayHold(s, r.id))
  }

  // At most one UNREF per object, sent when it starts dying, behind its CREATE.
  ghost predicate Protocol(s: State) {
    && (forall i | 0 <= i < |s.queue| :: s.queue[i].id in s.objs)
    && (forall r | r in s.replies :: r.id in s.objs)
    && (forall id | UnrefUnderway(s, id) :: id in s.objs && s.objs[id].phase == Dying)
    && (forall i, j | 0 <= i < j < |s.queue| && s.queue[i].Unref? :: s.queue[i].id != s.queue[j].id)
    && (forall i, r | 0 <= i < |s.queue| && s.queue[i].Unref? && r in s.replies :: r.id != s.queue[i].id)
    && (forall i, j | 0 <= i < j < |s.replies| :: s.replies[i].id != s.replies[j].id)
    && (forall r | r in s.replies :: CreateBlob(r.id) !in s.queue)
  }

  // returned lists each object that gave its blocks back, once.
  ghost predicate Ledger(s: State) {
    && (forall i, j | 0 <= i < j < |s.returned| :: s.returned[i] != s.returned[j])
    && (forall id :: id in s.returned <==> id in s.objs && !s.objs[id].owned)
    && (forall id | id in s.objs && !s.objs[id].owned :: s.objs[id].phase == Gone)
  }

  ghost predicate Inv(s: State) {
    Ownership(s) && Custody(s) && Protocol(s) && Ledger(s)
  }

  lemma FreshIsNew(live: set<Block>, got: seq<Block>)
    requires Fresh(live, got) && forall b | b in got :: b.len > 0
    ensures BlockSet(got) !! live
  {
    forall b | b in got ensures b !in live { assert RangeFree(live, b.off, b.End()); }
  }

  lemma CreateOwnership(s: State, id: nat, got: seq<Block>)
    requires Ownership(s) && Enabled(s, Create(id, got))
    ensures Ownership(Apply(s, Create(id, got)))
  {
    FreshIsNew(s.live, got);
  }

  lemma CreateProtocol(s: State, id: nat, got: seq<Block>)
    requires Protocol(s) && Enabled(s, Create(id, got))
    ensures Protocol(Apply(s, Create(id, got)))
  {
    assert forall x | UnrefUnderway(Apply(s, Create(id, got)), x) :: UnrefUnderway(s, x);
  }

  lemma CreateKeeps(s: State, id: nat, got: seq<Block>)
    requires Inv(s) && Enabled(s, Create(id, got))
    ensures Inv(Apply(s, Create(id, got)))
  {
    var s' := Apply(s, Create(id, got));
    CreateOwnership(s, id, got);
    CreateProtocol(s, id, got);
    assert Custody(s') by { assert forall x | MayHold(s', x) :: x == id || MayHold(s, x); }
    assert Ledger(s');
  }

  lemma CreateFailsKeeps(s: State, got: seq<Block>)
    requires Inv(s) && Enabled(s, CreateFails(got))
    ensures Apply(s, CreateFails(got)) == s
  {
    FreshIsNew(s.live, got);
    assert (s.live + BlockSet(got)) - BlockSet(got) == s.live;
  }

  lemma LastPutKeeps(s: State, id: nat)
    requires Inv(s) && Enabled(s, LastPut(id))
    ensures Inv(Apply(s, LastPut(id)))
  {
    var s' := Apply(s, LastPut(id));
    LastPutProtocol(s, id);
    assert forall x | MayHold(s', x) :: MayHold(s, x);
    assert Ownership(s');
    assert Custody(s');
    assert Ledger(s');
  }

  lemma LastPutProtocol(s: State, id: nat)
    requires Protocol(s) && Enabled(s, LastPut(id))
    ensures Protocol(Apply(s, LastPut(id)))
  {
    var s' := Apply(s, LastPut(id));
    assert !UnrefUnderway(s, id);
    assert forall i | 0 <= i < |s.queue| :: s.queue[i] in s.queue;
    assert forall x | UnrefUnderway(s', x) :: x == id || UnrefUnderway(s, x);
  }

  lemma HostCreateKeeps(s: State, accepts: bool)
    requires Inv(s) && Enabled(s, HostCreate(accepts))
    ensures Inv(Apply(s, HostCreate(accepts)))
  {
    var s' := Apply(s, HostCreate(accepts));
    assert s.queue[0] in s.queue;
    assert Custody(s') by { assert forall x | MayHold(s', x) :: MayHold(s, x); }
    HostCreateProtocol(s, accepts);
  }

  lemma HostCreateProtocol(s: State, accepts: bool)
    requires Protocol(s) && Enabled(s, HostCreate(accepts))
    ensures Protocol(Apply(s, HostCreate(accepts)))
  {
    assert forall x | UnrefUnderway(Apply(s, HostCreate(accepts)), x) :: UnrefUnderway(s, x);
  }

  lemma HostUnrefKeeps(s: State, v: Verdict, drops: bool)
    requires Inv(s) && Enabled(s, HostUnref(v, drops))
    ensures Inv(Apply(s, HostUnref(v, drops)))
  {
    HostUnrefCustody(s, v, drops);
    HostUnrefProtocol(s, v, drops);
  }

  lemma HostUnrefCustody(s: State, v: Verdict, drops: bool)
    requires Custody(s) && Protocol(s) && Enabled(s, HostUnref(v, drops))
    ensures Custody(Apply(s, HostUnref(v, drops)))
  {
    var s', id := Apply(s, HostUnref(v, drops)), s.queue[0].id;
    UnrefBehindCreate(s);
    assert forall x | MayHold(s', x) :: MayHold(s, x);
    assert forall r | r in s'.replies :: r in s.replies || r == Reply(id, v);
  }

  // Once an UNREF is at the head of the queue, no CREATE of that resource is behind it.
  lemma UnrefBehindCreate(s: State)
    requires Protocol(s) && s.queue != [] && s.queue[0].Unref?
    ensures CreateBlob(s.queue[0].id) !in s.queue
  {}

  lemma HostUnrefProtocol(s: State, v: Verdict, drops: bool)
    requires Protocol(s) && Enabled(s, HostUnref(v, drops))
    ensures Protocol(Apply(s, HostUnref(v, drops)))
  {
    var s', id := Apply(s, HostUnref(v, drops)), s.queue[0].id;
    assert s.queue[0] in s.queue && UnrefUnderway(s, id);
    forall x | UnrefUnderway(s', x) ensures UnrefUnderway(s, x) {
      if r :| r in s'.replies && r.id == x { assert r in s.replies || r == Reply(id, v); }
    }
    assert forall r | r in s'.replies :: r in s.replies || r == Reply(id, v);
    UnrefBehindCreate(s);
  }

  lemma DequeueKeeps(s: State, i: nat)
    requires Inv(s) && Enabled(s, Dequeue(i))
    ensures Inv(Apply(s, Dequeue(i)))
  {
    DequeueOwnership(s, i);
    DequeueCustody(s, i);
    DequeueProtocol(s, i);
    DequeueLedger(s, i);
  }

  lemma DequeueOwnership(s: State, i: nat)
    requires Ownership(s) && Enabled(s, Dequeue(i))
    ensures Ownership(Apply(s, Dequeue(i)))
  {}

  lemma DequeueCustody(s: State, i: nat)
    requires Custody(s) && Protocol(s) && Enabled(s, Dequeue(i))
    ensures Custody(Apply(s, Dequeue(i)))
  {
    var s', r := Apply(s, Dequeue(i)), s.replies[i];
    assert r in s.replies;
    assert forall x | MayHold(s', x) :: MayHold(s, x);
    assert forall x | x in s'.replies :: x in s.replies;
  }

  lemma DequeueLedger(s: State, i: nat)
    requires Ledger(s) && Protocol(s) && Enabled(s, Dequeue(i))
    ensures Ledger(Apply(s, Dequeue(i)))
  {
    var r := s.replies[i];
    assert r in s.replies && UnrefUnderway(s, r.id);
  }

  // The other replies, all of other resources.
  lemma RepliesLeft(q: seq<Reply>, i: nat)
    requires i < |q| && forall j, k | 0 <= j < k < |q| :: q[j].id != q[k].id
    ensures var left := q[..i] + q[i + 1..];
            && (forall x | x in left :: x in q && x.id != q[i].id)
            && (forall j, k | 0 <= j < k < |left| :: left[j].id != left[k].id)
  {}

  lemma DequeueProtocol(s: State, i: nat)
    requires Protocol(s) && Enabled(s, Dequeue(i))
    ensures Protocol(Apply(s, Dequeue(i)))
  {
    var s', r := Apply(s, Dequeue(i)), s.replies[i];
    RepliesLeft(s.replies, i);
    assert r in s.replies && s'.queue == s.queue;
    forall x | UnrefUnderway(s', x) ensures UnrefUnderway(s, x) && x != r.id {
      if Unref(x) in s'.queue {
        var j :| 0 <= j < |s.queue| && s.queue[j] == Unref(x);
      }
    }
  }

  lemma StepKeepsInv(s: State, e: Event)
    requires Inv(s) && Enabled(s, e)
    ensures Inv(Apply(s, e))
  {
    match e
    case Create(id, got) => CreateKeeps(s, id, got);
    case CreateFails(got) => CreateFailsKeeps(s, got);
    case LastPut(id) => LastPutKeeps(s, id);
    case HostCreate(accepts) => HostCreateKeeps(s, accepts);
    case HostUnref(v, drops) => HostUnrefKeeps(s, v, drops);
    case Dequeue(i) => DequeueKeeps(s, i);
  }

  // Over every run: memory of a resource the host may still have is never free, two such resources
  // share no block, and no object gives its blocks back twice.
  lemma {:induction false} HeldMemoryIsNeverFree(s: State, es: seq<Event>)
    requires Init(s) && IsRun(s, es)
    ensures var t := After(s, es);
            && Inv(t)
            && (forall id | MayHold(t, id) :: id in t.objs && BlockSet(t.objs[id].blocks) <= t.live)
            && (forall id, id' | MayHold(t, id) && MayHold(t, id') && id != id' ::
                  BlockSet(t.objs[id].blocks) !! BlockSet(t.objs[id'].blocks))
            && (forall i, j | 0 <= i < j < |t.returned| :: t.returned[i] != t.returned[j])
    decreases |es|
  {
    if es != [] {
      var init := es[..|es| - 1];
      assert forall i | 0 <= i < |init| :: init[..i] == es[..i];
      HeldMemoryIsNeverFree(s, init);
      StepKeepsInv(After(s, init), es[|es| - 1]);
    }
  }

  // Step i of the run takes a reply off the queue that says the host let go of id.
  ghost predicate Releases(s: State, es: seq<Event>, i: nat, id: nat) {
    i < |es| && es[i].Dequeue? &&
    var q := After(s, es[..i]).replies;
    es[i].i < |q| && q[es[i].i].id == id && q[es[i].i].verdict != OtherError
  }

  lemma DequeueReturns(s: State, e: Event, id: nat)
    requires Inv(s) && Enabled(s, e)
    ensures id in Apply(s, e).returned <==>
              id in s.returned || (e.Dequeue? && s.replies[e.i].id == id && s.replies[e.i].verdict != OtherError)
  {
    if e.Dequeue? {
      var r := s.replies[e.i];
      assert r in s.replies && UnrefUnderway(s, r.id);
    }
  }

  // Over every run: blocks have gone back if and only if a reply that says the host let go has been
  // taken off the queue.
  lemma {:induction false} ReturnedIffReleased(s: State, es: seq<Event>, id: nat)
    requires Init(s) && IsRun(s, es)
    ensures id in After(s, es).returned <==> exists i: nat :: Releases(s, es, i, id)
    decreases |es|
  {
    if es != [] {
      var n := |es| - 1;
      var init := es[..n];
      assert forall i | 0 <= i <= n :: init[..i] == es[..i];
      ReturnedIffReleased(s, init, id);
      HeldMemoryIsNeverFree(s, init);
      DequeueReturns(After(s, init), es[n], id);
      ReleasesSnoc(s, es, id);
    }
  }

  lemma ReleasesSnoc(s: State, es: seq<Event>, id: nat)
    requires es != []
    ensures var n := |es| - 1;
            (exists i: nat :: Releases(s, es, i, id)) <==>
              (exists i: nat :: Releases(s, es[..n], i, id)) || Releases(s, es, n, id)
  {
    var n := |es| - 1;
    var init := es[..n];
    assert forall i | 0 <= i <= n :: init[..i] == es[..i];
    forall i: nat | i < n ensures Releases(s, es, i, id) <==> Releases(s, init, i, id) {}
    if i: nat :| Releases(s, es, i, id) { assert i == n || Releases(s, init, i, id); }
    if i: nat :| Releases(s, init, i, id) { assert Releases(s, es, i, id); }
  }

  // An object that is gone is never touched again.
  lemma GoneIsFinal(s: State, e: Event, id: nat)
    requires Inv(s) && Enabled(s, e) && id in s.objs && s.objs[id].phase == Gone
    ensures id in Apply(s, e).objs && Apply(s, e).objs[id] == s.objs[id]
  {
    if e.Dequeue? {
      var r := s.replies[e.i];
      assert r in s.replies && UnrefUnderway(s, r.id);
    }
  }

  // After any other reply the blocks stay allocated for good.
  lemma {:induction false} OtherReplyLeaksForever(s: State, es: seq<Event>, id: nat)
    requires Inv(s) && IsRun(s, es) && id in s.objs && s.objs[id].owned && s.objs[id].phase == Gone
    ensures var t := After(s, es);
            Inv(t) && id in t.objs && t.objs[id] == s.objs[id] && BlockSet(s.objs[id].blocks) <= t.live
    decreases |es|
  {
    if es != [] {
      var init := es[..|es| - 1];
      assert forall i | 0 <= i < |init| :: init[..i] == es[..i];
      OtherReplyLeaksForever(s, init, id);
      StepKeepsInv(After(s, init), es[|es| - 1]);
      GoneIsFinal(After(s, init), es[|es| - 1], id);
    }
  }

  // ----- nothing else is allocated, and nothing else is sent -----

  ghost predicate Owned(s: State, b: Block) {
    exists id :: id in s.objs && s.objs[id].owned && b in BlockSet(s.objs[id].blocks)
  }

  // Allocated is what was allocated to others, and what objects own.
  ghost predicate Accounted(others: set<Block>, s: State) {
    && (forall b :: b in s.live <==> b in others || Owned(s, b))
    && (forall b | b in others :: !Owned(s, b))
  }

  lemma CreateAccounts(others: set<Block>, s: State, id: nat, got: seq<Block>)
    requires Accounted(others, s) && Enabled(s, Create(id, got))
    ensures Accounted(others, Apply(s, Create(id, got)))
  {
    var t := Apply(s, Create(id, got));
    FreshIsNew(s.live, got);
    forall b ensures Owned(t, b) <==> Owned(s, b) || b in BlockSet(got) {
      if Owned(s, b) {
        var x :| x in s.objs && s.objs[x].owned && b in BlockSet(s.objs[x].blocks);
        assert t.objs[x] == s.objs[x];
      }
      if b in BlockSet(got) { assert t.objs[id] == Obj(got, true, InUse); }
    }
  }

  lemma DequeueAccounts(others: set<Block>, s: State, i: nat)
    requires Inv(s) && Accounted(others, s) && Enabled(s, Dequeue(i))
    ensures Accounted(others, Apply(s, Dequeue(i)))
  {
    var r, t := s.replies[i], Apply(s, Dequeue(i));
    assert r in s.replies;
    var o := s.objs[r.id];
    var back := if r.verdict != OtherError && o.owned then BlockSet(o.blocks) else {};
    assert t.live == s.live - back;
    forall b ensures Owned(t, b) <==> Owned(s, b) && b !in back {
      if Owned(s, b) && b !in back {
        var x :| x in s.objs && s.objs[x].owned && b in BlockSet(s.objs[x].blocks);
        assert x in t.objs && t.objs[x].owned && t.objs[x].blocks == s.objs[x].blocks;
      }
    }
    assert forall b | b in back :: Owned(s, b);
  }

  lemma StepAccounts(others: set<Block>, s: State, e: Event)
    requires Inv(s) && Accounted(others, s) && Enabled(s, e)
    ensures Accounted(others, Apply(s, e))
  {
    match e
    case Create(id, got) => CreateAccounts(others, s, id, got);
    case CreateFails(got) => CreateFailsKeeps(s, got);
    case Dequeue(i) => DequeueAccounts(others, s, i);
    case _ =>
      var t := Apply(s, e);
      assert forall x :: x in t.objs <==> x in s.objs;
      assert forall x | x in s.objs :: t.objs[x].owned == s.objs[x].owned && t.objs[x].blocks == s.objs[x].blocks;
      assert forall b :: Owned(t, b) <==> Owned(s, b);
  }

  // Over every run: allocated are the blocks others had from the start, and those of objects that own
  // theirs; no more and no less.
  lemma {:induction false} LiveIsOwned(s: State, es: seq<Event>)
    requires Init(s) && IsRun(s, es)
    ensures Accounted(s.live, After(s, es))
    decreases |es|
  {
    if es != [] {
      var init := es[..|es| - 1];
      assert forall i | 0 <= i < |init| :: init[..i] == es[..i];
      LiveIsOwned(s, init);
      HeldMemoryIsNeverFree(s, init);
      StepAccounts(s.live, After(s, init), es[|es| - 1]);
    }
  }

  lemma ObjectsAreMade(s: State, e: Event, id: nat)
    requires id in Apply(s, e).objs
    ensures if id in s.objs && !(e.Create? && e.id == id) then Apply(s, e).objs[id].blocks == s.objs[id].blocks
            else e.Create? && e.id == id && Apply(s, e).objs[id].blocks == e.got
  {}

  // An object has the blocks it was created with.
  lemma {:induction false} BlocksAreItsOwn(s: State, es: seq<Event>, id: nat) returns (i: nat)
    requires Init(s) && IsRun(s, es) && id in After(s, es).objs
    ensures i < |es| && es[i] == Create(id, After(s, es).objs[id].blocks)
    decreases |es|
  {
    i := |es| - 1;
    var init := es[..i];
    assert forall j | 0 <= j < |init| :: init[..j] == es[..j];
    ObjectsAreMade(After(s, init), es[i], id);
    if !(es[i].Create? && es[i].id == id) { i := BlocksAreItsOwn(s, init, id); }
  }

  // The commands a run sends: one CREATE for each object made, one UNREF for each last put.
  function Sent(es: seq<Event>): seq<Cmd> {
    if es == [] then [] else
    var e := es[|es| - 1];
    Sent(es[..|es| - 1])
    + (if e.Create? then [CreateBlob(e.id)] else if e.LastPut? then [Unref(e.id)] else [])
  }

  // How many of them the host has served.
  function Served(es: seq<Event>): nat {
    if es == [] then 0 else
    Served(es[..|es| - 1]) + (if es[|es| - 1].HostCreate? || es[|es| - 1].HostUnref? then 1 else 0)
  }

  // Over every run the queue holds, in order, exactly what was sent and not yet served.
  lemma {:induction false} CommandsInOrder(s: State, es: seq<Event>)
    requires Init(s) && IsRun(s, es)
    ensures Served(es) <= |Sent(es)| && After(s, es).queue == Sent(es)[Served(es)..]
    decreases |es|
  {
    if es != [] {
      var init, e := es[..|es| - 1], es[|es| - 1];
      assert forall i | 0 <= i < |init| :: init[..i] == es[..i];
      CommandsInOrder(s, init);
      QueueStep(After(s, init), e, Sent(init), Served(init));
    }
  }

  lemma QueueStep(s: State, e: Event, sent: seq<Cmd>, served: nat)
    requires Enabled(s, e) && served <= |sent| && s.queue == sent[served..]
    ensures var all := sent + (if e.Create? then [CreateBlob(e.id)] else if e.LastPut? then [Unref(e.id)] else []);
            var n := served + (if e.HostCreate? || e.HostUnref? then 1 else 0);
            n <= |all| && Apply(s, e).queue == all[n..]
  {
    if e.Dequeue? { assert Apply(s, e).queue == s.queue; }
  }
}
