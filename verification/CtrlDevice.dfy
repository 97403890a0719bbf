// The driver's side of the control queue: adding a command, and the worker that reclaims used ones,
// hands their fences to the fence driver, runs their callbacks and frees them. Every step either takes
// is a step of the queue's machine, so the device's state is always one some run of it reaches.
module CtrlDevice {
  import opened Arith
  import opened CtrlQueue
  import F = Fences

  // A command as the host answers it: fence is the number its response carries, if flagged.
  datatype Answer = NoFence | Fence(id: nat)

  function Answers(cs: seq<Cmd>, answer: Cmd -> Answer): seq<F.Event> {
    if cs == [] then []
    else Answers(cs[..|cs| - 1], answer)
         + (var a := answer(cs[|cs| - 1]); if a.Fence? then [F.Event.Response(a.id)] else [])
  }

  function AfterAll(s: F.State, es: seq<F.Event>): F.State {
    if es == [] then s else F.Apply(AfterAll(s, es[..|es| - 1]), es[|es| - 1])
  }

  function ArrayOf(c: Cmd): seq<seq<nat>> { if c.objs == [] then [] else [c.objs] }

  // The object arrays the commands carry.
  function Arrays(cs: seq<Cmd>): seq<seq<nat>> {
    if cs == [] then []
    else Arrays(cs[..|cs| - 1]) + ArrayOf(cs[|cs| - 1])
  }

  function Number(fence: nat): seq<nat> { if fence == 0 then [] else [fence] }

  // The numbers of the fenced commands.
  function FencesOf(cs: seq<Cmd>): seq<nat> {
    if cs == [] then []
    else FencesOf(cs[..|cs| - 1]) + Number(cs[|cs| - 1].fence)
  }

  function IdsOf(fs: seq<F.Fence>): seq<nat> {
    if fs == [] then [] else IdsOf(fs[..|fs| - 1]) + [fs[|fs| - 1].id]
  }

  lemma Prefix<T>(xs: seq<T>, x: T)
    ensures (xs + [x])[..|xs + [x]| - 1] == xs
  {}

  lemma Snoc(cs: seq<Cmd>, c: Cmd, answer: Cmd -> Answer)
    ensures Arrays(cs + [c]) == Arrays(cs) + ArrayOf(c)
    ensures Answers(cs + [c], answer)
            == Answers(cs, answer) + (var a := answer(c); if a.Fence? then [F.Event.Response(a.id)] else [])
  {
    Prefix(cs, c);
  }

  lemma Assoc<T>(a: seq<T>, b: seq<T>, c: seq<T>)
    ensures a + b + c == a + (b + c)
  {}

  // Moving the head of one list to the end of another.
  lemma Shift(done: seq<Cmd>, todo: seq<Cmd>)
    requires todo != []
    ensures done + [todo[0]] + todo[1..] == done + todo
  {}

  lemma OneMore(s: F.State, es: seq<F.Event>, a: Answer)
    ensures AfterAll(s, es + (if a.Fence? then [F.Event.Response(a.id)] else []))
            == if a.Fence? then F.Apply(AfterAll(s, es), F.Event.Response(a.id)) else AfterAll(s, es)
  {
    if a.Fence? {
      Prefix(es, F.Event.Response(a.id));
    } else {
      assert es + [] == es;
    }
  }

  // A command added with its number already taken from the fence driver: a step of the machine.
  lemma AddedIsQueued(s: State, id: nat, n: nat, fenced: bool, objs: seq<nat>, fence: nat, current: nat)
    requires n <= s.numFree
    requires if fenced then fence == current == s.fenceId + 1 else fence == 0 && current == s.fenceId
    ensures Added(s.(fenceId := current), Cmd(id, n, fence, objs), current) == Apply(s, Queue(id, n, fenced, objs))
  {
    AddedAfterEmit(s, Cmd(id, n, fence, objs), current);
  }

  lemma Queued(s: State, id: nat, n: nat, fenced: bool, objs: seq<nat>, fence: nat, current: nat, size: nat)
    requires Reached(s, size) && 0 < n <= s.numFree && forall c | c in s.accepted :: c.id != id
    requires if fenced then fence == current == s.fenceId + 1 else fence == 0 && current == s.fenceId
    ensures var t := Added(s.(fenceId := current), Cmd(id, n, fence, objs), current);
            t == Apply(s, Queue(id, n, fenced, objs)) && Reached(t, size)
  {
    AddedIsQueued(s, id, n, fenced, objs, fence, current);
    var e := Queue(id, n, fenced, objs);
    assert Enabled(s, e);
    ReachedStep(s, e, size);
  }

  lemma AddedAfterEmit(s: State, c: Cmd, fenceId: nat)
    requires c.descs <= s.numFree
    ensures Added(s.(fenceId := fenceId), c, fenceId) == Added(s, c, fenceId)
  {}

  // The fences pending in a that are no longer pending in b are those the answers to cs take away.
  ghost predicate TakenBy(a: F.State, cs: seq<Cmd>, answer: Cmd -> Answer, b: F.State) {
    && (forall k | 0 <= k < |cs| && answer(cs[k]).Fence? :: forall f | f in b.pending :: f.id != answer(cs[k]).id)
    && (forall f | f in b.pending :: f in a.pending)
    && (forall f | f in a.pending && f !in b.pending :: SomeAnswerTakes(a, cs, answer, f))
  }

  // Some answer names f, or a fence of its timeline that is later than f.
  ghost predicate SomeAnswerTakes(a: F.State, cs: seq<Cmd>, answer: Cmd -> Answer, f: F.Fence) {
    exists k, g :: 0 <= k < |cs| && answer(cs[k]).Fence? && g in a.pending && g.id == answer(cs[k]).id
                   && g.context == f.context && (f == g || F.IsLater(g.id, f.id))
  }

  lemma TakesSnoc(a: F.State, cs: seq<Cmd>, c: Cmd, answer: Cmd -> Answer, f: F.Fence)
    requires SomeAnswerTakes(a, cs, answer, f)
    ensures SomeAnswerTakes(a, cs + [c], answer, f)
  {
    var k, g :| 0 <= k < |cs| && answer(cs[k]).Fence? && g in a.pending && g.id == answer(cs[k]).id
                && g.context == f.context && (f == g || F.IsLater(g.id, f.id));
    assert (cs + [c])[k] == cs[k];
  }

  lemma TakenOne(a: F.State, cs: seq<Cmd>, c: Cmd, answer: Cmd -> Answer, b: F.State)
    requires TakenBy(a, cs, answer, b) && F.Ordered(b)
    ensures var b' := if answer(c).Fence? then F.Apply(b, F.Event.Response(answer(c).id)) else b;
            TakenBy(a, cs + [c], answer, b') && F.Ordered(b')
  {
    if answer(c).Fence? {
      var id := answer(c).id;
      var b' := F.Apply(b, F.Event.Response(id));
      F.ResponseTakes(b, id);
      F.ResponseKeepsOrdered(b, id);
      forall f | f in a.pending && f !in b'.pending ensures SomeAnswerTakes(a, cs + [c], answer, f) {
        if f in b.pending {
          var g :| g in b.pending && g.id == id && g.context == f.context && (f == g || F.IsLater(id, f.id));
          assert (cs + [c])[|cs|] == c;
        } else {
          TakesSnoc(a, cs, c, answer, f);
        }
      }
    } else {
      forall f | f in a.pending && f !in b.pending ensures SomeAnswerTakes(a, cs + [c], answer, f) {
        TakesSnoc(a, cs, c, answer, f);
      }
    }
  }

  // What the fence driver has done once every command of a batch has handed its fence over.
  lemma {:induction false} AnswersTake(s: F.State, cs: seq<Cmd>, answer: Cmd -> Answer)
    requires F.Ordered(s)
    ensures var t := AfterAll(s, Answers(cs, answer)); TakenBy(s, cs, answer, t) && F.Ordered(t)
  {
    if cs != [] {
      var init, c := cs[..|cs| - 1], cs[|cs| - 1];
      AnswersTake(s, init, answer);
      OneMore(s, Answers(init, answer), answer(c));
      TakenOne(s, init, c, answer, AfterAll(s, Answers(init, answer)));
      assert cs == init + [c];
    }
  }

  class ControlQueue {
    const size: nat
    const fences: F.FenceDriver
    var numFree: nat
    var ring: seq<Cmd>
    var used: seq<Cmd>
    var reclaim: seq<Cmd>
    var finished: seq<Cmd>
    var freeList: seq<seq<nat>>
    var seqno: nat
    ghost var accepted: seq<Cmd>
    ghost var called: seq<Cmd>
    ghost var freed: seq<Cmd>
    ghost var inHand: seq<nat>        // the drain worker's part of the machine
    ghost var dropped: multiset<nat>

    ghost function View(): State reads this, fences {
      State(numFree, ring, used, reclaim, finished, freeList, inHand, seqno, fences.current,
            accepted, called, freed, dropped)
    }

    // The device and its fence driver are where some run of their machines leads, and the driver has
    // emitted the fences of the commands in the ring's order.
    ghost predicate Valid() reads this, fences {
      && Reached(View(), size)
      && IdsOf(fences.emitted) == FencesOf(accepted)
      && F.Reached(fences.View())
    }

    constructor (size: nat)
      ensures Valid() && fresh(fences) && numFree == size == this.size
    {
      this.size, numFree := size, size;
      ring, used, reclaim, finished, freeList, seqno := [], [], [], [], [], 0;
      accepted, called, freed, inHand, dropped := [], [], [], [], multiset{};
      fences := new F.FenceDriver();
      new;
      F.ReachedStart();
      ReachedStart(size);
    }

    method AddSgs(c: Cmd)
      requires c.descs <= numFree
      modifies this`numFree, this`ring, this`seqno, this`accepted
      ensures View() == Added(old(View()), c, fences.current)
      ensures ring == old(ring) + [c] && accepted == old(accepted) + [c] && numFree == old(numFree) - c.descs
      ensures FencesOf(accepted) == FencesOf(old(accepted)) + Number(c.fence)
    {
      numFree := numFree - c.descs;
      ring := ring + [c];
      seqno := (seqno + 1) % U32;
      Prefix(accepted, c);
      accepted := accepted + [c];
    }

    // Now that the command's place is known, give its fence the next number; 0 without a fence.
    method TakeNumber(fenced: bool, context: nat, event: nat) returns (fence: nat)
      requires F.Reached(fences.View())
      modifies fences
      ensures F.Reached(fences.View())
      ensures fences.emitted == old(fences.emitted) + if fenced then [F.Fence(fence, context, event)] else []
      ensures fence == if fenced then old(fences.current) + 1 else 0
      ensures fences.current == if fenced then fence else old(fences.current)
      ensures fences.View() == if fenced then F.Apply(old(fences.View()), F.Emit(context, event))
                               else old(fences.View())
      ensures IdsOf(fences.emitted) == IdsOf(old(fences.emitted)) + Number(fence)
    {
      if !fenced { return 0; }
      F.ReachedStep(fences.View(), F.Emit(context, event));
      var f := fences.FenceEmit(context, event);
      Prefix(old(fences.emitted), f);
      fence := f.id;
    }

    method Add(id: nat, n: nat, fenced: bool, context: nat, event: nat, objs: seq<nat>) returns (ghost c: Cmd)
      requires Valid() && 0 < n <= numFree && forall c | c in View().accepted :: c.id != id
      modifies this`numFree, this`ring, this`seqno, this`accepted, fences
      ensures Valid() && View() == Apply(old(View()), Queue(id, n, fenced, objs))
      ensures fences.View() == if fenced then F.Apply(old(fences.View()), F.Emit(context, event))
                               else old(fences.View())
      ensures c == Cmd(id, n, if fenced then old(fences.current) + 1 else 0, objs)
      ensures ring == old(ring) + [c] && accepted == old(accepted) + [c] && numFree == old(numFree) - n
      ensures fences.emitted == old(fences.emitted) + if fenced then [F.Fence(c.fence, context, event)] else []
    {
      ghost var s := View();
      var fence := TakeNumber(fenced, context, event);
      ghost var taken := View();
      assert taken == s.(fenceId := fences.current);
      Queued(s, id, n, fenced, objs, fence, fences.current, size);
      c := Cmd(id, n, fence, objs);
      AddSgs(Cmd(id, n, fence, objs));
      assert View() == Added(taken, c, fences.current);
    }

    // One pass of the submitter under the queue lock; with no room it lets go, waits and tries again.
    method TryQueue(id: nat, elems: nat, indirect: bool, fenced: bool, context: nat, event: nat, objs: seq<nat>)
      returns (queued: bool)
      requires Valid() && elems > 0 && forall c | c in View().accepted :: c.id != id
      modifies this, fences
      ensures Valid() && View() == Apply(old(View()), Queue(id, if indirect then 1 else elems, fenced, objs))
      ensures queued == ((if indirect then 1 else elems) <= old(numFree))
      ensures fences.View() == if queued && fenced then F.Apply(old(fences.View()), F.Emit(context, event))
                               else old(fences.View())
      ensures !queued ==> View() == old(View())
      ensures var n := if indirect then 1 else elems;
              var c := Cmd(id, n, if fenced then old(fences.current) + 1 else 0, objs);
              queued ==>
                && ring == old(ring) + [c] && accepted == old(accepted) + [c] && numFree == old(numFree) - n
                && fences.emitted == old(fences.emitted) + if fenced then [F.Fence(c.fence, context, event)] else []
    {
      var n := if indirect then 1 else elems;
      if numFree < n { return false; }
      ghost var c := Add(id, n, fenced, context, event, objs);
      return true;
    }

    // The host uses a command: the other side of the ring.
    method HostUse(i: nat)
      requires Valid() && i < |ring|
      modifies this`ring, this`used
      ensures Valid()
      ensures ring == old(ring[..i] + ring[i + 1..]) && used == old(used + [ring[i]])
    {
      ghost var s := View();
      ring, used := ring[..i] + ring[i + 1..], used + [ring[i]];
      ReachedStep(s, HostUses(i), size);
    }

    method TakeOffOne()
      requires Valid() && used != []
      modifies this`numFree, this`used, this`reclaim
      ensures Valid() && used == old(used)[1..] && reclaim == old(reclaim) + [old(used)[0]]
    {
      ghost var s := View();
      numFree := numFree + used[0].descs;
      used, reclaim := used[1..], reclaim + [used[0]];
      ReachedStep(s, TakeOff, size);
    }

    method ReclaimVbufs()
      requires Valid()
      modifies this`numFree, this`used, this`reclaim
      ensures Valid() && used == [] && reclaim == old(reclaim + used)
    {
      while used != []
        invariant Valid() && reclaim + used == old(reclaim + used)
        decreases |used|
      {
        Shift(reclaim, used);
        TakeOffOne();
      }
    }

    // Hand the response's fence over, if it carries one, then run the command's callback.
    method CallbackOne(a: Answer)
      requires Valid() && reclaim != []
      modifies this`reclaim, this`finished, this`called, fences
      ensures Valid() && reclaim == old(reclaim)[1..] && finished == old(finished) + [old(reclaim)[0]]
      ensures called == old(called) + [old(reclaim)[0]]
      ensures fences.View() == if a.Fence? then F.Apply(old(fences.View()), F.Event.Response(a.id))
                               else old(fences.View())
    {
      ghost var s := View();
      if a.Fence? {
        F.ReachedStep(fences.View(), F.Event.Response(a.id));
        fences.EventProcess(a.id);
      }
      var c := reclaim[0];
      reclaim, finished := reclaim[1..], finished + [c];
      called := called + [c];
      assert View() == Apply(s, Callback);
      ReachedStep(s, Callback, size);
    }

    method RunCallbacks(answer: Cmd -> Answer)
      requires Valid()
      modifies this`reclaim, this`finished, this`called, fences
      ensures Valid() && reclaim == [] && finished == old(finished + reclaim)
      ensures called == old(called + reclaim)
      ensures fences.View() == AfterAll(old(fences.View()), Answers(old(reclaim), answer))
    {
      ghost var done: seq<Cmd> := [];
      while reclaim != []
        invariant Valid() && done + reclaim == old(reclaim)
        invariant finished == old(finished) + done && called == old(called) + done
        invariant fences.View() == AfterAll(old(fences.View()), Answers(done, answer))
        decreases |reclaim|
      {
        ghost var c, rest := reclaim[0], reclaim;
        CallbackOne(answer(reclaim[0]));
        Shift(done, rest);
        Snoc(done, c, answer);
        OneMore(old(fences.View()), Answers(done, answer), answer(c));
        Assoc(old(finished), done, [c]);
        Assoc(old(called), done, [c]);
        done := done + [c];
      }
      assert done == old(reclaim);
    }

    method FreeOne()
      requires Valid() && reclaim == [] && finished != []
      modifies this`finished, this`freeList, this`freed
      ensures Valid() && finished == old(finished)[1..]
      ensures freed == old(freed) + [old(finished)[0]]
      ensures freeList == old(freeList) + ArrayOf(old(finished)[0])
    {
      ghost var s := View();
      var c := finished[0];
      if c.objs != [] { freeList := freeList + [c.objs]; }
      finished := finished[1..];
      freed := freed + [c];
      assert View() == Apply(s, FreeBuffer);
      ReachedStep(s, FreeBuffer, size);
    }

    method FreeBuffers()
      requires Valid() && reclaim == []
      modifies this`finished, this`freeList, this`freed
      ensures Valid() && finished == []
      ensures freed == old(freed + finished)
      ensures freeList == old(freeList) + Arrays(old(finished))
    {
      ghost var done: seq<Cmd> := [];
      while finished != []
        invariant Valid() && done + finished == old(finished)
        invariant freed == old(freed) + done && freeList == old(freeList) + Arrays(done)
        decreases |finished|
      {
        ghost var c, rest := finished[0], finished;
        FreeOne();
        Shift(done, rest);
        Snoc(done, c, _ => NoFence);
        Assoc(old(freeList), Arrays(done), ArrayOf(c));
        Assoc(old(freed), done, [c]);
        done := done + [c];
      }
      assert done == old(finished);
    }

    // The dequeue worker. late[k] are the ring positions the host uses while it reclaims for the k-th
    // time; it looks again until there are none. Every command in the batch is called back once, then
    // freed once, in the order the host used them, its fence handed over before its callback; and the
    // batch is exactly what has left the ring.
    method DequeueCtrl(late: seq<seq<nat>>, answer: Cmd -> Answer) returns (batch: seq<Cmd>)
      requires Valid() && reclaim == [] && finished == []
      modifies this, fences
      ensures Valid() && used == reclaim == finished == []
      ensures old(used) <= batch
      ensures forall c :: old(Count(ring, c) + Count(used, c)) == Count(ring, c) + Count(batch, c)
      ensures accepted == old(accepted) && called == old(called) + batch && freed == old(freed) + batch
      ensures freeList == old(freeList) + Arrays(batch)
      ensures fences.View() == AfterAll(old(fences.View()), Answers(batch, answer))
      ensures TakenBy(old(fences.View()), batch, answer, fences.View())
    {
      ReclaimAll(late);
      batch := reclaim;
      F.ReachedIsSound(fences.View());
      AnswersTake(fences.View(), batch, answer);
      CompleteAll(answer);
      forall c ensures old(Count(ring, c) + Count(used, c)) == Count(ring, c) + Count(batch, c) {
        CalledIsWhatLeft(old(View()), View(), size, batch, c);
      }
    }

    method CompleteAll(answer: Cmd -> Answer)
      requires Valid() && finished == []
      modifies this`reclaim, this`finished, this`freeList, this`called, this`freed, fences
      ensures Valid() && reclaim == finished == []
      ensures called == old(called + reclaim) && freed == old(freed + reclaim)
      ensures freeList == old(freeList) + Arrays(old(reclaim))
      ensures fences.View() == AfterAll(old(fences.View()), Answers(old(reclaim), answer))
    {
      assert [] + reclaim == reclaim;
      RunCallbacks(answer);
      assert finished == old(reclaim);
      FreeBuffers();
    }

    method ReclaimAll(late: seq<seq<nat>>)
      requires Valid() && reclaim == []
      modifies this`numFree, this`ring, this`used, this`reclaim
      ensures Valid() && used == [] && old(used) <= reclaim
    {
      ReclaimVbufs();
      var round := 0;
      while round < |late|
        invariant Valid() && used == [] && old(used) <= reclaim
      {
        HostUseAll(late[round]);
        if used == [] { break; }
        ReclaimVbufs();
        round := round + 1;
      }
    }

    method HostUseAll(at: seq<nat>)
      requires Valid() && used == []
      modifies this`ring, this`used
      ensures Valid()
    {
      var k := 0;
      while k < |at|
        invariant Valid()
      {
        if at[k] < |ring| {
          HostUse(at[k]);
        }
        k := k + 1;
      }
    }
  }
}
