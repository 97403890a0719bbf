// Object arrays: the buffer objects a command touches, each with a reference the array holds, and the
// free list whose worker drops those references once the command has completed.
module ObjArrays {
  import opened Drain

  // The references that a list of arrays holds, all together.
  function AllHeld(arrays: seq<seq<nat>>): multiset<nat> {
    if arrays == [] then multiset{} else multiset(arrays[0]) + AllHeld(arrays[1..])
  }

  lemma {:induction false} AllHeldAppend(arrays: seq<seq<nat>>, a: seq<nat>)
    ensures AllHeld(arrays + [a]) == AllHeld(arrays) + multiset(a)
  {
    if arrays == [] {
      assert arrays + [a] == [a] && [a][1..] == [];
    } else {
      AllHeldAppend(arrays[1..], a);
      assert (arrays + [a])[1..] == arrays[1..] + [a];
    }
  }

  // Dropping objects one by one, or arrays one by one, from references that cover them all.
  lemma PutNext(refs: multiset<nat>, objs: seq<nat>, i: nat)
    requires i < |objs| && multiset(objs) <= refs
    ensures objs[i] in refs - multiset(objs[..i])
    ensures refs - multiset(objs[..i]) - multiset{objs[i]} == refs - multiset(objs[..i + 1])
  {
    assert objs == objs[..i] + [objs[i]] + objs[i + 1..];
    assert objs[..i + 1] == objs[..i] + [objs[i]];
  }

  lemma PutNextArray(refs: multiset<nat>, all: seq<seq<nat>>, k: nat)
    requires k < |all| && AllHeld(all) <= refs
    ensures multiset(all[k]) <= refs - AllHeld(all[..k])
    ensures refs - AllHeld(all[..k]) - multiset(all[k]) == refs - AllHeld(all[..k + 1])
  {
    PrefixHeld(all, k + 1);
    HeldUpTo(all, k);
    MinusTwo(refs, AllHeld(all[..k]), multiset(all[k]));
  }

  lemma HeldUpTo(all: seq<seq<nat>>, k: nat)
    requires k < |all|
    ensures AllHeld(all[..k + 1]) == AllHeld(all[..k]) + multiset(all[k])
  {
    assert all[..k + 1] == all[..k] + [all[k]];
    AllHeldAppend(all[..k], all[k]);
  }

  lemma MinusTwo(refs: multiset<nat>, a: multiset<nat>, b: multiset<nat>)
    requires a + b <= refs
    ensures b <= refs - a && refs - a - b == refs - (a + b)
  {
    assert forall o :: (a + b)[o] <= refs[o];
  }

  lemma {:induction false} PrefixHeld(all: seq<seq<nat>>, k: nat)
    requires k <= |all|
    ensures AllHeld(all[..k]) <= AllHeld(all)
  {
    if k > 0 {
      PrefixHeld(all[1..], k - 1);
      assert all[..k][1..] == all[1..][..k - 1];
    }
  }

  class ObjArray {
    const total: nat
    var objs: seq<nat>

    constructor (total: nat)
      ensures this.total == total && objs == []
    {
      this.total, objs := total, [];
    }
  }

  class Objects {
    var refs: multiset<nat>          // the references to each object, however held
    var freeList: seq<seq<nat>>      // the contents of the arrays queued for the drain worker

    method Get(o: nat)
      requires o in refs
      modifies this`refs
      ensures refs == old(refs) + multiset{o}
    {
      refs := refs + multiset{o};
    }

    method Put(o: nat)
      requires o in refs
      modifies this`refs
      ensures refs == old(refs) - multiset{o}
    {
      refs := refs - multiset{o};
    }

    // Give back every reference an array holds.
    method PutFree(objs: seq<nat>)
      requires multiset(objs) <= refs
      modifies this`refs
      ensures refs == old(refs) - multiset(objs)
    {
      var i := 0;
      while i < |objs|
        invariant i <= |objs| && refs == old(refs) - multiset(objs[..i])
      {
        PutNext(old(refs), objs, i);
        Put(objs[i]);
        i := i + 1;
      }
      assert objs[..i] == objs;
    }

    // Look every handle up, taking a reference on each object. A handle that names nothing undoes the
    // lookups before it. The handle table keeps a reference to whatever it names.
    method FromHandles(table: map<nat, nat>, handles: seq<nat>, nomem: bool) returns (a: ObjArray?)
      requires forall h | h in table :: table[h] in refs
      modifies this`refs
      ensures a != null <==> !nomem && forall h | h in handles :: h in table
      ensures a != null ==>
        && fresh(a) && |a.objs| == |handles| == a.total
        && (forall k | 0 <= k < |handles| :: a.objs[k] == table[handles[k]])
        && refs == old(refs) + multiset(a.objs)
      ensures a == null ==> refs == old(refs)
    {
      if nomem { return null; }
      a := new ObjArray(|handles|);
      var i := 0;
      while i < |handles|
        invariant i <= |handles| == a.total && fresh(a) && |a.objs| == i
        invariant refs == old(refs) + multiset(a.objs)
        invariant forall k | 0 <= k < i :: handles[k] in table && a.objs[k] == table[handles[k]]
      {
        if handles[i] !in table {
          PutFree(a.objs);
          return null;
        }
        Get(table[handles[i]]);
        a.objs := a.objs + [table[handles[i]]];
        i := i + 1;
      }
    }

    // Adding to a full array does nothing, so no reference is taken that nothing would drop.
    method AddObj(a: ObjArray, o: nat)
      requires |a.objs| <= a.total && o in refs
      modifies this`refs, a`objs
      ensures |a.objs| <= a.total
      ensures a.objs == if old(|a.objs|) < a.total then old(a.objs) + [o] else old(a.objs)
      ensures refs == if old(|a.objs|) < a.total then old(refs) + multiset{o} else old(refs)
    {
      if |a.objs| == a.total { return; }
      Get(o);
      a.objs := a.objs + [o];
    }

    method PutFreeDelayed(a: ObjArray)
      modifies this`freeList
      ensures freeList == old(freeList) + [a.objs]
    {
      freeList := freeList + [a.objs];
    }

    method PutFirst()
      requires freeList != [] && multiset(freeList[0]) <= refs
      modifies this
      ensures freeList == old(freeList)[1..] && refs == old(refs) - multiset(old(freeList)[0])
    {
      var objs := freeList[0];
      freeList := freeList[1..];
      PutFree(objs);
    }

    // The drain worker lets go of the lock while it drops an array's references; added[k] are the
    // arrays others put on the list the k-th time it does. It ends with the list empty, having dropped
    // every reference of the arrays queued by then exactly once, in the order they were queued.
    method PutFreeWork(added: seq<seq<seq<nat>>>) returns (ghost dropped: seq<seq<nat>>)
      requires AllHeld(freeList + Concat(added)) <= refs
      modifies this
      ensures freeList == [] && dropped + Concat(From(added, |dropped|)) == old(freeList) + Concat(added)
      ensures refs == old(refs) - AllHeld(dropped)
    {
      var laps := 0;
      ghost var all := freeList + Concat(added);
      assert Partway(all, 0, freeList, added);
      assert all[..0] == [];
      while freeList != []
        invariant Partway(all, laps, freeList, added)
        invariant refs == old(refs) - AllHeld(all[..laps])
        decreases |all| - laps
      {
        DrainOne(all, laps, freeList, added);
        PutNextArray(old(refs), all, laps);
        PutFirst();
        freeList := freeList + Arriving(added, laps);
        laps := laps + 1;
      }
      dropped := all[..laps];
      DrainDone(all, laps, added);
    }
  }
}
