// The control virtqueue: submitters add commands under the queue lock, the host uses them in any
// order, one worker reclaims and completes them, and another drops the object references they held,
// letting go of its lock between items.
module CtrlQueue {
  import opened Arith

  // descs: ring descriptors the command takes. fence: its fence number, 0 if it has none. objs: the
  // objects its array holds a reference to.
  datatype Cmd = Cmd(id: nat, descs: nat, fence: nat, objs: seq<nat>)

  datatype State = State(
    numFree: nat,
    ring: seq<Cmd>,             // in the host's hands, in the order they were added
    used: seq<Cmd>,             // used by the host, not yet taken off the ring
    reclaim: seq<Cmd>,          // taken off, callback still to run
    finished: seq<Cmd>,         // callback has run, buffer still to be freed
    freeList: seq<seq<nat>>,    // object arrays waiting for the drain worker
    inHand: seq<nat>,           // references of the array the drain worker is putting
    seqno: nat, fenceId: nat,
    accepted: seq<Cmd>, called: seq<Cmd>, freed: seq<Cmd>, dropped: multiset<nat>)

  datatype Event =
    | Queue(id: nat, elems: nat, fenced: bool, objs: seq<nat>)
    | HostUses(i: nat)
    | TakeOff
    | Callback
    | FreeBuffer
    | PopArray
    | PutOne

  ghost predicate Enabled(s: State, e: Event) {
    match e
    case Queue(id, elems, _, _) => elems > 0 && forall c | c in s.accepted :: c.id != id
    case HostUses(i) => i < |s.ring|
    case TakeOff => s.used != []
    case Callback => s.reclaim != []
    case FreeBuffer => s.reclaim == [] && s.finished != []
    case PopArray => s.inHand == [] && s.freeList != []
    case PutOne => s.inHand != []
  }

  function Added(s: State, c: Cmd, fenceId: nat): State
    requires c.descs <= s.numFree
  {
    s.(numFree := s.numFree - c.descs, ring := s.ring + [c], accepted := s.accepted + [c],
       seqno := (s.seqno + 1) % U32, fenceId := fenceId)
  }

  function Apply(s: State, e: Event): State {
    match e
    // Under the queue lock: with too few descriptors the submitter waits; otherwise its position is
    // known, so it gets its fence number and is added.
    case Queue(id, elems, fenced, objs) =>
      if s.numFree < elems then s
      else
        Added(s, Cmd(id, elems, if fenced then s.fenceId + 1 else 0, objs), if fenced then s.fenceId + 1 else s.fenceId)
    case HostUses(i) =>
      if i >= |s.ring| then s
      else s.(ring := s.ring[..i] + s.ring[i + 1..], used := s.used + [s.ring[i]])
    case TakeOff =>
      if s.used == [] then s
      else s.(used := s.used[1..], reclaim := s.reclaim + [s.used[0]], numFree := s.numFree + s.used[0].descs)
    case Callback =>
      if s.reclaim == [] then s
      else s.(reclaim := s.reclaim[1..], finished := s.finished + [s.reclaim[0]], called := s.called + [s.reclaim[0]])
    case FreeBuffer =>
      if s.finished == [] then s
      else s.(finished := s.finished[1..], freed := s.freed + [s.finished[0]],
              freeList := if s.finished[0].objs == [] then s.freeList else s.freeList + [s.finished[0].objs])
    case PopArray =>
      if s.freeList == [] || s.inHand != [] then s
      else s.(freeList := s.freeList[1..], inHand := s.freeList[0])
    case PutOne =>
      if s.inHand == [] then s
      else s.(inHand := s.inHand[1..], dropped := s.dropped + multiset{s.inHand[0]})
  }

  function Descs(cs: seq<Cmd>): nat { if cs == [] then 0 else cs[0].descs + Descs(cs[1..]) }

  // How often x occurs in a list; how many references to o the commands, and the arrays, hold.
  function Count<T(==)>(xs: seq<T>, x: T): nat {
    if xs == [] then 0 else (if xs[0] == x then 1 else 0) + Count(xs[1..], x)
  }

  function Refs(cs: seq<Cmd>, o: nat): nat { if cs == [] then 0 else Count(cs[0].objs, o) + Refs(cs[1..], o) }

  function Flat(arrays: seq<seq<nat>>, o: nat): nat {
    if arrays == [] then 0 else Count(arrays[0], o) + Flat(arrays[1..], o)
  }

  lemma {:induction false} CountAppend<T>(xs: seq<T>, x: T, y: T)
    ensures Count(xs + [x], y) == Count(xs, y) + if x == y then 1 else 0
  {
    if xs == [] {
      assert xs + [x] == [x] && [x][1..] == [];
    } else {
      CountAppend(xs[1..], x, y);
      assert (xs + [x])[1..] == xs[1..] + [x];
    }
  }

  lemma {:induction false} CountConcat<T>(xs: seq<T>, ys: seq<T>, y: T)
    ensures Count(xs + ys, y) == Count(xs, y) + Count(ys, y)
  {
    if xs == [] {
      assert xs + ys == ys;
    } else {
      CountConcat(xs[1..], ys, y);
      assert (xs + ys)[1..] == xs[1..] + ys;
    }
  }

  lemma {:induction false} SumsAppend(cs: seq<Cmd>, c: Cmd, o: nat)
    ensures Descs(cs + [c]) == Descs(cs) + c.descs && Refs(cs + [c], o) == Refs(cs, o) + Count(c.objs, o)
  {
    if cs == [] {
      assert cs + [c] == [c] && [c][1..] == [];
    } else {
      SumsAppend(cs[1..], c, o);
      assert (cs + [c])[1..] == cs[1..] + [c];
    }
  }

  lemma {:induction false} SumsRemove(cs: seq<Cmd>, i: nat, c: Cmd, o: nat)
    requires i < |cs|
    ensures var r := cs[..i] + cs[i + 1..];
            Descs(cs) == Descs(r) + cs[i].descs && Refs(cs, o) == Refs(r, o) + Count(cs[i].objs, o)
            && Count(cs, c) == Count(r, c) + if cs[i] == c then 1 else 0
  {
    var r := cs[..i] + cs[i + 1..];
    if i == 0 {
      assert r == cs[1..];
    } else {
      SumsRemove(cs[1..], i - 1, c, o);
      assert r[1..] == cs[1..][..i - 1] + cs[1..][i..] && r[0] == cs[0];
    }
  }

  lemma {:induction false} FlatAppend(arrays: seq<seq<nat>>, a: seq<nat>, o: nat)
    ensures Flat(arrays + [a], o) == Flat(arrays, o) + Count(a, o)
  {
    if arrays == [] {
      assert arrays + [a] == [a] && [a][1..] == [];
    } else {
      FlatAppend(arrays[1..], a, o);
      assert (arrays + [a])[1..] == arrays[1..] + [a];
    }
  }

  // ----- what every step keeps -----

  // Each accepted command is in one place; callbacks and frees happen once each, in that order.
  ghost predicate OnceFor(s: State, c: Cmd) {
    && Count(s.accepted, c) == Count(s.ring, c) + Count(s.used, c) + Count(s.reclaim, c) + Count(s.called, c)
    && Count(s.called, c) == Count(s.finished, c) + Count(s.freed, c)
  }

  // References taken are in flight, on the free list, in the drain worker's hand, or dropped.
  ghost predicate RefsConservedFor(s: State, o: nat) {
    Refs(s.accepted, o)
      == Refs(s.ring, o) + Refs(s.used, o) + Refs(s.reclaim, o) + Refs(s.finished, o)
         + Flat(s.freeList, o) + Count(s.inHand, o) + s.dropped[o]
  }

  ghost predicate Once(s: State) { forall c :: OnceFor(s, c) }

  ghost predicate RefsConserved(s: State) { forall o :: RefsConservedFor(s, o) }

  // The ring is never overcommitted.
  ghost predicate Capacity(s: State, size: nat) {
    s.numFree + Descs(s.ring) + Descs(s.used) == size
  }

  // Fence numbers increase in the order commands entered the ring.
  ghost predicate FencesInRingOrder(s: State) {
    && (forall c | c in s.accepted :: c.fence <= s.fenceId)
    && (forall i, j | 0 <= i < j < |s.accepted| && s.accepted[i].fence != 0 && s.accepted[j].fence != 0 ::
          s.accepted[i].fence < s.accepted[j].fence)
    && (forall i, j | 0 <= i < j < |s.accepted| :: s.accepted[i].id != s.accepted[j].id)
  }

  lemma QueueKeeps(s: State, e: Event, c: Cmd, o: nat)
    requires OnceFor(s, c) && RefsConservedFor(s, o) && e.Queue?
    ensures OnceFor(Apply(s, e), c) && RefsConservedFor(Apply(s, e), o)
  {
    if s.numFree >= e.elems {
      var added := Cmd(e.id, e.elems, if e.fenced then s.fenceId + 1 else 0, e.objs);
      assert Apply(s, e).ring == s.ring + [added] && Apply(s, e).accepted == s.accepted + [added];
      SumsAppend(s.ring, added, o);
      SumsAppend(s.accepted, added, o);
      CountAppend(s.ring, added, c);
      CountAppend(s.accepted, added, c);
    }
  }

  lemma HostUsesKeeps(s: State, i: nat, c: Cmd, o: nat)
    requires OnceFor(s, c) && RefsConservedFor(s, o) && i < |s.ring|
    ensures OnceFor(Apply(s, HostUses(i)), c) && RefsConservedFor(Apply(s, HostUses(i)), o)
  {
    SumsRemove(s.ring, i, c, o);
    SumsAppend(s.used, s.ring[i], o);
    CountAppend(s.used, s.ring[i], c);
  }

  lemma TakeOffKeeps(s: State, c: Cmd, o: nat)
    requires OnceFor(s, c) && RefsConservedFor(s, o) && s.used != []
    ensures OnceFor(Apply(s, TakeOff), c) && RefsConservedFor(Apply(s, TakeOff), o)
  {
    SumsAppend(s.reclaim, s.used[0], o);
    CountAppend(s.reclaim, s.used[0], c);
  }

  lemma CallbackKeeps(s: State, c: Cmd, o: nat)
    requires OnceFor(s, c) && RefsConservedFor(s, o) && s.reclaim != []
    ensures OnceFor(Apply(s, Callback), c) && RefsConservedFor(Apply(s, Callback), o)
  {
    SumsAppend(s.finished, s.reclaim[0], o);
    CountAppend(s.finished, s.reclaim[0], c);
    CountAppend(s.called, s.reclaim[0], c);
  }

  lemma FreeBufferKeeps(s: State, c: Cmd, o: nat)
    requires OnceFor(s, c) && RefsConservedFor(s, o) && s.finished != []
    ensures OnceFor(Apply(s, FreeBuffer), c) && RefsConservedFor(Apply(s, FreeBuffer), o)
  {
    CountAppend(s.freed, s.finished[0], c);
    FlatAppend(s.freeList, s.finished[0].objs, o);
  }

  lemma PopArrayKeeps(s: State, c: Cmd, o: nat)
    requires OnceFor(s, c) && RefsConservedFor(s, o) && s.inHand == [] && s.freeList != []
    ensures OnceFor(Apply(s, PopArray), c) && RefsConservedFor(Apply(s, PopArray), o)
  {
    assert Flat(s.freeList, o) == Count(s.freeList[0], o) + Flat(s.freeList[1..], o);
  }

  lemma PutOneKeeps(s: State, c: Cmd, o: nat)
    requires OnceFor(s, c) && RefsConservedFor(s, o) && s.inHand != []
    ensures OnceFor(Apply(s, PutOne), c) && RefsConservedFor(Apply(s, PutOne), o)
  {
    assert Count(s.inHand, o) == (if s.inHand[0] == o then 1 else 0) + Count(s.inHand[1..], o);
  }

  lemma StepKeepsFor(s: State, e: Event, c: Cmd, o: nat)
    requires OnceFor(s, c) && RefsConservedFor(s, o) && Enabled(s, e)
    ensures OnceFor(Apply(s, e), c) && RefsConservedFor(Apply(s, e), o)
  {
    match e
    case Queue(_, _, _, _) => QueueKeeps(s, e, c, o);
    case HostUses(i) => HostUsesKeeps(s, i, c, o);
    case TakeOff => TakeOffKeeps(s, c, o);
    case Callback => CallbackKeeps(s, c, o);
    case FreeBuffer => FreeBufferKeeps(s, c, o);
    case PopArray => PopArrayKeeps(s, c, o);
    case PutOne => PutOneKeeps(s, c, o);
  }

  lemma StepKeepsCounts(s: State, e: Event)
    requires Once(s) && RefsConserved(s) && Enabled(s, e)
    ensures Once(Apply(s, e)) && RefsConserved(Apply(s, e))
  {
    forall c ensures OnceFor(Apply(s, e), c) {
      assert OnceFor(s, c) && RefsConservedFor(s, 0);
      StepKeepsFor(s, e, c, 0);
    }
    forall o ensures RefsConservedFor(Apply(s, e), o) {
      var c := Cmd(0, 0, 0, []);
      assert OnceFor(s, c) && RefsConservedFor(s, o);
      StepKeepsFor(s, e, c, o);
    }
  }

  lemma StepCapacity(s: State, e: Event, size: nat)
    requires Capacity(s, size) && Enabled(s, e)
    ensures Capacity(Apply(s, e), size)
  {
    match e
    case Queue(id, elems, fenced, objs) =>
      SumsAppend(s.ring, Cmd(id, elems, if fenced then s.fenceId + 1 else 0, objs), 0);
    case HostUses(i) =>
      SumsRemove(s.ring, i, s.ring[i], 0);
      SumsAppend(s.used, s.ring[i], 0);
    case _ =>
  }

  lemma StepFences(s: State, e: Event)
    requires FencesInRingOrder(s) && Enabled(s, e)
    ensures FencesInRingOrder(Apply(s, e))
  {
    assert forall i | 0 <= i < |s.accepted| :: s.accepted[i] in s.accepted;
  }

  function Start(size: nat): State {
    State(size, [], [], [], [], [], [], 0, 0, [], [], [], multiset{})
  }

  // The state a sequence of steps leads to from an empty queue, and whether each step could be taken.
  function After(es: seq<Event>, size: nat): State {
    if es == [] then Start(size) else Apply(After(es[..|es| - 1], size), es[|es| - 1])
  }

  ghost predicate Legal(es: seq<Event>, size: nat) {
    es == [] || (Legal(es[..|es| - 1], size) && Enabled(After(es[..|es| - 1], size), es[|es| - 1]))
  }

  // For every interleaving of submitters, host and workers.
  lemma {:induction false} QueueOverRuns(es: seq<Event>, size: nat)
    requires Legal(es, size)
    ensures var s := After(es, size); Once(s) && RefsConserved(s) && Capacity(s, size) && FencesInRingOrder(s)
  {
    if es != [] {
      var s, e := After(es[..|es| - 1], size), es[|es| - 1];
      QueueOverRuns(es[..|es| - 1], size);
      StepKeepsCounts(s, e);
      StepCapacity(s, e, size);
      StepFences(s, e);
    }
  }

  ghost predicate Reached(s: State, size: nat) {
    exists es :: Legal(es, size) && s == After(es, size)
  }

  lemma ReachedStep(s: State, e: Event, size: nat)
    requires Reached(s, size) && Enabled(s, e)
    ensures Reached(Apply(s, e), size)
  {
    var es :| Legal(es, size) && s == After(es, size);
    var fs := es + [e];
    assert fs[..|fs| - 1] == es;
    assert Legal(fs, size) && Apply(s, e) == After(fs, size);
  }

  lemma ReachedStart(size: nat)
    ensures Reached(Start(size), size)
  {
    assert Legal([], size) && After([], size) == Start(size);
  }

  lemma ReachedIsSound(s: State, size: nat)
    requires Reached(s, size)
    ensures Once(s) && RefsConserved(s) && Capacity(s, size) && FencesInRingOrder(s)
  {
    var es :| Legal(es, size) && s == After(es, size);
    QueueOverRuns(es, size);
  }

  // Between two reachable states with the same commands accepted and none half-way, what was called back
  // is what left the ring.
  lemma CalledIsWhatLeft(s: State, t: State, size: nat, batch: seq<Cmd>, c: Cmd)
    requires Reached(s, size) && Reached(t, size) && s.accepted == t.accepted && t.called == s.called + batch
    requires s.reclaim == t.reclaim == [] && t.used == []
    ensures Count(s.ring, c) + Count(s.used, c) == Count(t.ring, c) + Count(batch, c)
  {
    ReachedIsSound(s, size);
    ReachedIsSound(t, size);
    assert OnceFor(s, c) && OnceFor(t, c);
    CountConcat(s.called, batch, c);
  }

  lemma {:induction false} DistinctCount(cs: seq<Cmd>, c: Cmd)
    requires forall i, j | 0 <= i < j < |cs| :: cs[i].id != cs[j].id
    ensures Count(cs, c) <= 1 && (c !in cs ==> Count(cs, c) == 0)
  {
    if cs != [] {
      DistinctCount(cs[1..], c);
      if cs[0] == c { assert c !in cs[1..]; }
    }
  }

  // No command is called back or freed twice, and once all is quiet every command has been called
  // back and freed, and every reference its array held has been dropped.
  lemma QuietMeansSettled(es: seq<Event>, size: nat)
    requires Legal(es, size)
    ensures forall c :: Count(After(es, size).called, c) <= 1 && Count(After(es, size).freed, c) <= 1
    ensures var s := After(es, size);
            s.ring == s.used == s.reclaim == s.finished == [] && s.freeList == [] && s.inHand == [] ==>
              && (forall c :: Count(s.accepted, c) == Count(s.called, c) == Count(s.freed, c))
              && (forall o :: s.dropped[o] == Refs(s.accepted, o)) && s.numFree == size
  {
    var s := After(es, size);
    QueueOverRuns(es, size);
    forall c ensures Count(s.called, c) <= 1 && Count(s.freed, c) <= 1 {
      assert OnceFor(s, c);
      DistinctCount(s.accepted, c);
    }
    if s.ring == [] && s.used == [] && s.reclaim == [] && s.finished == [] && s.freeList == [] && s.inHand == [] {
      forall c ensures Count(s.accepted, c) == Count(s.called, c) == Count(s.freed, c) { assert OnceFor(s, c); }
      forall o ensures s.dropped[o] == Refs(s.accepted, o) { assert RefsConservedFor(s, o); }
    }
  }

  // ----- the data buffer -----

  // The C int a 32-bit unsigned value converts to.
  function AsInt(x: nat): int { if x < 0x8000_0000 then x else x - U32 }

  function Sum(xs: seq<int>): int { if xs == [] then 0 else Sum(xs[..|xs| - 1]) + xs[|xs| - 1] }

  // Split a page-aligned vmalloc buffer into one segment a page. The segment lengths are sound exactly
  // for buffers below 2 GiB: then they are whole pages but for the last, and add up to the size.
  method VmallocToSgt(size0: nat) returns (segs: seq<int>)
    requires size0 < U32
    ensures |segs| == (size0 + PAGE - 1) / PAGE
    ensures size0 < 0x8000_0000 ==>
              Sum(segs) == size0 && forall i | 0 <= i < |segs| :: segs[i] == Min(PAGE, size0 - i * PAGE) > 0
    ensures size0 >= 0x8000_0000 ==> segs[0] < 0
  {
    var n := (size0 + PAGE - 1) / PAGE;
    var size := size0;
    segs := [];
    var i := 0;
    while i < n
      invariant 0 <= i <= n && |segs| == i && 0 <= size < U32
      invariant size0 < 0x8000_0000 ==>
                  Sum(segs) + size == size0 && size == if i * PAGE <= size0 then size0 - i * PAGE else 0
      invariant size0 < 0x8000_0000 ==> forall k | 0 <= k < i :: segs[k] == Min(PAGE, size0 - k * PAGE) > 0
      invariant i == 0 ==> size == size0
      invariant size0 >= 0x8000_0000 && i > 0 ==> segs[0] < 0
    {
      var s := Min(PAGE, AsInt(size));
      assert (segs + [s])[..i] == segs;
      segs := segs + [s];
      size := (size - s) % U32;
      i := i + 1;
    }
  }
}
