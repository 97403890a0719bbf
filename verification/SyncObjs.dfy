// The sync objects of one submission: the ones it waits for and may reset, and the ones its out-fence
// goes to. Each is looked up with a reference, a timeline point needs a chain node besides, and every
// way out of the submission has to give all of them back.
module SyncObjs {
  import opened Errno

  // One descriptor of user space, and how the calls made for it turn out.
  datatype Desc = Desc(
    handle: nat, point: nat, flags: nat,
    readable: bool,       // the copy from user space works
    fenceErr: int,        // finding the fence to wait for
    waitErr: int,         // waiting for it
    chainOk: bool)        // allocating a chain node

  const RESET: nat := 1

  type Handles = map<nat, nat>

  // What is done to a sync object, in order.
  datatype Op = AddPoint(obj: nat, point: nat) | Replace(obj: nat) | Reset(obj: nat)

  // 0 stands for a null pointer.
  datatype PostDep = PostDep(point: nat, chain: nat, obj: nat)

  predicate GoodHandles(t: Handles) { forall h | h in t :: t[h] != 0 }

  // ----- what the descriptors ask for -----

  function DepErr(d: Desc, t: Handles): int {
    if !d.readable then EFAULT
    else if d.flags > RESET then EINVAL
    else if d.fenceErr != 0 then d.fenceErr
    else if d.waitErr != 0 then d.waitErr
    else if d.flags == RESET && d.handle !in t then EINVAL
    else 0
  }

  function PostDepErr(d: Desc, t: Handles): int {
    if !d.readable then EFAULT
    else if d.flags != 0 then EINVAL
    else if d.point != 0 && !d.chainOk then ENOMEM
    else if d.handle !in t then EINVAL
    else 0
  }

  // The first error among the first n descriptors.
  function FirstErr(ds: seq<Desc>, n: nat, t: Handles, out: bool): int
    requires n <= |ds|
  {
    if n == 0 then 0
    else if FirstErr(ds, n - 1, t, out) != 0 then FirstErr(ds, n - 1, t, out)
    else if out then PostDepErr(ds[n - 1], t) else DepErr(ds[n - 1], t)
  }

  function ListErr(ds: seq<Desc>, t: Handles, nomem: bool, out: bool): int {
    if ds != [] && nomem then ENOMEM else FirstErr(ds, |ds|, t, out)
  }

  function Obj(d: Desc, t: Handles): nat { if d.handle in t then t[d.handle] else 0 }

  function InSlots(ds: seq<Desc>, n: nat, t: Handles): seq<nat>
    requires n <= |ds|
  {
    if n == 0 then [] else InSlots(ds, n - 1, t) + [if ds[n - 1].flags == RESET then Obj(ds[n - 1], t) else 0]
  }

  function OutOp(d: Desc, t: Handles): Op {
    if d.point != 0 then AddPoint(Obj(d, t), d.point) else Replace(Obj(d, t))
  }

  function OutOps(ds: seq<Desc>, n: nat, t: Handles): seq<Op>
    requires n <= |ds|
  {
    if n == 0 then [] else OutOps(ds, n - 1, t) + [OutOp(ds[n - 1], t)]
  }

  function Resets(slots: seq<nat>): seq<Op> {
    if slots == [] then []
    else Resets(slots[..|slots| - 1]) + (if slots[|slots| - 1] == 0 then [] else [Reset(slots[|slots| - 1])])
  }

  // ----- what the slots hold -----

  function With(m: multiset<nat>, x: nat): multiset<nat> { if x == 0 then m else m + multiset{x} }

  // base, and what the slots hold besides.
  function Held(base: multiset<nat>, slots: seq<nat>): multiset<nat> {
    if slots == [] then base else With(Held(base, slots[..|slots| - 1]), slots[|slots| - 1])
  }

  // References and chain nodes together.
  datatype Books = Books(refs: multiset<nat>, chains: multiset<nat>)

  function Took(b: Books, p: PostDep): Books { Books(b.refs + multiset{p.obj}, With(b.chains, p.chain)) }

  function Owed(base: Books, ps: seq<PostDep>): Books {
    if ps == [] then base else Took(Owed(base, ps[..|ps| - 1]), ps[|ps| - 1])
  }

  function OpOf(p: PostDep): Op { if p.chain != 0 then AddPoint(p.obj, p.point) else Replace(p.obj) }

  function OpsOf(ps: seq<PostDep>): seq<Op> { if ps == [] then [] else OpsOf(ps[..|ps| - 1]) + [OpOf(ps[|ps| - 1])] }

  // The list once its chain nodes have been taken over.
  function Cleared(ps: seq<PostDep>): seq<PostDep> {
    if ps == [] then [] else Cleared(ps[..|ps| - 1]) + [ps[|ps| - 1].(chain := 0)]
  }

  lemma HeldSnoc(base: multiset<nat>, slots: seq<nat>, x: nat)
    ensures Held(base, slots + [x]) == With(Held(base, slots), x)
  {
    assert (slots + [x])[..|slots|] == slots;
  }

  // Giving the last slot back leaves what the others hold.
  lemma DropLast(base: multiset<nat>, slots: seq<nat>, i: nat)
    requires i < |slots|
    ensures var all, x := Held(base, slots[..i + 1]), slots[i];
            if x == 0 then all == Held(base, slots[..i]) else x in all && all - multiset{x} == Held(base, slots[..i])
  {
    assert slots[..i + 1] == slots[..i] + [slots[i]];
    HeldSnoc(base, slots[..i], slots[i]);
  }

  lemma DepsSnoc(base: Books, ps: seq<PostDep>, p: PostDep)
    ensures Owed(base, ps + [p]) == Took(Owed(base, ps), p) && OpsOf(ps + [p]) == OpsOf(ps) + [OpOf(p)]
    ensures Cleared(ps + [p]) == Cleared(ps) + [p.(chain := 0)]
  {
    assert (ps + [p])[..|ps|] == ps;
  }

  lemma DropDep(base: Books, ps: seq<PostDep>, i: nat)
    requires i < |ps|
    ensures var all, left, p := Owed(base, ps[..i + 1]), Owed(base, ps[..i]), ps[i];
            && p.obj in all.refs && all.refs - multiset{p.obj} == left.refs
            && (if p.chain == 0 then all.chains == left.chains
                else p.chain in all.chains && all.chains - multiset{p.chain} == left.chains)
  {
    assert ps[..i + 1] == ps[..i] + [ps[i]];
    DepsSnoc(base, ps[..i], ps[i]);
  }

  class Submission {
    var refs: multiset<nat>          // references to each sync object, whoever holds them
    var chains: multiset<nat>        // chain nodes the driver owns
    var given: multiset<nat>         // chain nodes sync objects have taken over
    var ops: seq<Op>
    var nextChain: nat
    var inSyncobjs: seq<nat>
    var postDeps: seq<PostDep>

    function Now(): Books reads this { Books(refs, chains) }

    // The chain nodes the driver owns and those it has handed over.
    function Nodes(): multiset<nat> reads this { chains + given }

    method PutSyncobj(o: nat)
      requires o in refs
      modifies this`refs
      ensures refs == old(refs) - multiset{o}
    {
      refs := refs - multiset{o};
    }

    method KfreeChain(c: nat)
      requires c != 0 ==> c in chains
      modifies this`chains
      ensures chains == if c == 0 then old(chains) else old(chains) - multiset{c}
    {
      if c != 0 { chains := chains - multiset{c}; }
    }

    method FreeSyncobjs(slots: seq<nat>, ghost base: multiset<nat>)
      requires refs == Held(base, slots)
      modifies this`refs
      ensures refs == base
    {
      var i := |slots|;
      assert slots[..i] == slots;
      while i > 0
        invariant 0 <= i <= |slots| && refs == Held(base, slots[..i])
      {
        i := i - 1;
        DropLast(base, slots, i);
        if slots[i] != 0 { PutSyncobj(slots[i]); }
      }
    }

    // Wait for the descriptor's fence, then look its object up if it is to be reset.
    method ParseDep(d: Desc, t: Handles) returns (ret: int, obj: nat)
      requires GoodHandles(t)
      modifies this`refs
      ensures ret == DepErr(d, t)
      ensures refs == With(old(refs), obj)
      ensures obj == if ret == 0 && d.flags == RESET then Obj(d, t) else 0
    {
      obj := 0;
      if !d.readable { return EFAULT, 0; }
      if d.flags > RESET { return EINVAL, 0; }
      if d.fenceErr != 0 { return d.fenceErr, 0; }
      if d.waitErr != 0 { return d.waitErr, 0; }
      if d.flags == RESET {
        if d.handle !in t { return EINVAL, 0; }
        obj := t[d.handle];
        refs := refs + multiset{obj};
      }
      ret := 0;
    }

    // The descriptors in turn, up to the first that fails.
    method FillDeps(ds: seq<Desc>, t: Handles) returns (ret: int, slots: seq<nat>)
      requires GoodHandles(t)
      modifies this`refs
      ensures ret == FirstErr(ds, |ds|, t, false)
      ensures ret == 0 ==> slots == InSlots(ds, |ds|, t)
      ensures refs == Held(old(refs), slots)
    {
      ret, slots := 0, [];
      var i := 0;
      while i < |ds|
        invariant i <= |ds| && FirstErr(ds, i, t, false) == 0 == ret
        invariant slots == InSlots(ds, i, t) && refs == Held(old(refs), slots)
      {
        var obj;
        ret, obj := ParseDep(ds[i], t);
        if ret != 0 {
          FirstErrStays(ds, i + 1, t, false);
          return;
        }
        HeldSnoc(old(refs), slots, obj);
        slots := slots + [obj];
        i := i + 1;
      }
    }

    // A descriptor that fails undoes the ones before it.
    method ParseDeps(ds: seq<Desc>, t: Handles, nomem: bool) returns (ret: int)
      requires GoodHandles(t) && inSyncobjs == []
      modifies this`refs, this`inSyncobjs
      ensures ret == ListErr(ds, t, nomem, false)
      ensures inSyncobjs == if ret == 0 then InSlots(ds, |ds|, t) else []
      ensures refs == Held(old(refs), inSyncobjs)
    {
      if |ds| == 0 { return 0; }
      if nomem { return ENOMEM; }
      var slots;
      ret, slots := FillDeps(ds, t);
      if ret != 0 {
        FreeSyncobjs(slots, old(refs));
        return;
      }
      inSyncobjs := slots;
    }

    method AllocChain() returns (c: nat)
      modifies this`chains, this`nextChain
      ensures c != 0 && chains == With(old(chains), c)
    {
      nextChain := nextChain + 1;
      c := nextChain;
      chains := chains + multiset{c};
    }

    // A chain node for a timeline point, then the object; a failing lookup frees the node again.
    method ParsePostDep(d: Desc, t: Handles) returns (ret: int, p: PostDep)
      requires GoodHandles(t)
      modifies this`refs, this`chains, this`nextChain
      ensures ret == PostDepErr(d, t)
      ensures ret == 0 ==> OpOf(p) == OutOp(d, t) && Now() == Took(old(Now()), p)
      ensures ret != 0 ==> Now() == old(Now())
    {
      p := PostDep(0, 0, 0);
      if !d.readable { return EFAULT, p; }
      p := PostDep(d.point, 0, 0);
      if d.flags != 0 { return EINVAL, p; }
      if d.point != 0 {
        if !d.chainOk { return ENOMEM, p; }
        var c := AllocChain();
        p := p.(chain := c);
      }
      if d.handle !in t {
        WithOut(old(chains), p.chain);
        KfreeChain(p.chain);
        return EINVAL, p;
      }
      p := p.(obj := t[d.handle]);
      refs := refs + multiset{p.obj};
      ret := 0;
    }

    method FreePostDep(ghost base: Books, ps: seq<PostDep>, i: nat)
      requires i < |ps| && Now() == Owed(base, ps[..i + 1])
      modifies this`refs, this`chains
      ensures Now() == Owed(base, ps[..i])
    {
      DropDep(base, ps, i);
      KfreeChain(ps[i].chain);
      PutSyncobj(ps[i].obj);
    }

    method FreePostDeps(ps: seq<PostDep>, ghost base: Books)
      requires Now() == Owed(base, ps)
      modifies this`refs, this`chains
      ensures Now() == base
    {
      var i := |ps|;
      assert ps[..i] == ps;
      while i > 0
        invariant 0 <= i <= |ps| && Now() == Owed(base, ps[..i])
      {
        i := i - 1;
        FreePostDep(base, ps, i);
      }
    }

    method FillPostDeps(ds: seq<Desc>, t: Handles) returns (ret: int, ps: seq<PostDep>)
      requires GoodHandles(t)
      modifies this`refs, this`chains, this`nextChain
      ensures ret == FirstErr(ds, |ds|, t, true) && Now() == Owed(old(Now()), ps)
      ensures ret == 0 ==> OpsOf(ps) == OutOps(ds, |ds|, t)
    {
      ret, ps := 0, [];
      var i := 0;
      while i < |ds|
        invariant i <= |ds| && FirstErr(ds, i, t, true) == 0 == ret
        invariant OpsOf(ps) == OutOps(ds, i, t) && Now() == Owed(old(Now()), ps)
      {
        var p;
        ret, p := ParsePostDep(ds[i], t);
        if ret != 0 {
          FirstErrStays(ds, i + 1, t, true);
          return;
        }
        DepsSnoc(old(Now()), ps, p);
        ps := ps + [p];
        i := i + 1;
      }
    }

    method ParsePostDeps(ds: seq<Desc>, t: Handles, nomem: bool) returns (ret: int)
      requires GoodHandles(t) && postDeps == []
      modifies this`refs, this`chains, this`nextChain, this`postDeps
      ensures ret == ListErr(ds, t, nomem, true)
      ensures if ret == 0 then OpsOf(postDeps) == OutOps(ds, |ds|, t) else postDeps == []
      ensures Now() == Owed(old(Now()), postDeps)
    {
      if |ds| == 0 { return 0; }
      if nomem { return ENOMEM; }
      var ps;
      ret, ps := FillPostDeps(ds, t);
      if ret != 0 {
        FreePostDeps(ps, old(Now()));
        return;
      }
      postDeps := ps;
    }

    method ProcessPostDep(ghost base: Books, i: nat)
      requires i < |postDeps| && chains == Owed(base, postDeps).chains
      modifies this`chains, this`given, this`ops, this`postDeps
      ensures postDeps == old(postDeps)[i := old(postDeps)[i].(chain := 0)]
      ensures chains == Owed(base, postDeps).chains && Owed(base, postDeps).refs == Owed(base, old(postDeps)).refs
      ensures ops == old(ops) + [OpOf(old(postDeps)[i])] && Nodes() == old(Nodes())
      ensures |given| == |old(given)| + if OpOf(old(postDeps)[i]).AddPoint? then 1 else 0
    {
      var p := postDeps[i];
      ClearAt(base, postDeps, i);
      if p.chain != 0 {
        ops := ops + [AddPoint(p.obj, p.point)];
        MoveOne(Owed(base, postDeps[i := p.(chain := 0)]).chains, given, p.chain);
        chains, given := chains - multiset{p.chain}, given + multiset{p.chain};
        postDeps := postDeps[i := p.(chain := 0)];
      } else {
        ops := ops + [Replace(p.obj)];
        NothingToClear(postDeps, i);
      }
    }

    // The out-fence goes to each object in turn, on its timeline through the chain node, which the
    // object then owns; the slot forgets the node, so cleaning up cannot free it.
    method ProcessPostDeps(ghost base: Books)
      requires chains == Owed(base, postDeps).chains
      modifies this`chains, this`given, this`ops, this`postDeps
      ensures postDeps == Cleared(old(postDeps))
      ensures chains == Owed(base, postDeps).chains && Owed(base, postDeps).refs == Owed(base, old(postDeps)).refs
      ensures ops == old(ops) + OpsOf(old(postDeps)) && Nodes() == old(Nodes())
      ensures |given| == |old(given)| + Points(OpsOf(old(postDeps)))
    {
      ghost var ps := postDeps;
      var i := 0;
      HalfwayEnds(ps, old(ops));
      while i < |postDeps|
        invariant Halfway(ps, postDeps, i) && ops == OpsBy(old(ops), ps, i)
        invariant chains == Owed(base, postDeps).chains && Owed(base, postDeps).refs == Owed(base, ps).refs
        invariant Nodes() == old(Nodes()) && |given| == |old(given)| + PointsBy(ps, i)
      {
        HalfwayStep(ps, postDeps, i, old(ops));
        ProcessPostDep(base, i);
        i := i + 1;
      }
    }

    method ResetSyncobjs()
      modifies this`ops
      ensures ops == old(ops) + Resets(inSyncobjs)
    {
      var i := 0;
      assert inSyncobjs[..0] == [];
      while i < |inSyncobjs|
        invariant i <= |inSyncobjs| && ops == old(ops) + Resets(inSyncobjs[..i])
      {
        assert inSyncobjs[..i + 1][..i] == inSyncobjs[..i];
        if inSyncobjs[i] != 0 { ops := ops + [Reset(inSyncobjs[i])]; }
        i := i + 1;
      }
      assert inSyncobjs[..i] == inSyncobjs;
    }

    method Cleanup(ghost base: Books)
      requires chains == Owed(base, postDeps).chains && refs == Held(Owed(base, postDeps).refs, inSyncobjs)
      modifies this`refs, this`chains, this`ops
      ensures Now() == base && ops == old(ops) + Resets(inSyncobjs)
    {
      ResetSyncobjs();
      FreeSyncobjs(inSyncobjs, Owed(base, postDeps).refs);
      FreePostDeps(postDeps, base);
    }

    method Prepare(ins: seq<Desc>, outs: seq<Desc>, t: Handles, nomemOut: bool, nomemIn: bool) returns (ret: int)
      requires GoodHandles(t) && inSyncobjs == [] && postDeps == []
      modifies this`refs, this`chains, this`nextChain, this`inSyncobjs, this`postDeps
      ensures ret == Either(ListErr(outs, t, nomemOut, true), ListErr(ins, t, nomemIn, false))
      ensures if ret == 0 then inSyncobjs == InSlots(ins, |ins|, t) && OpsOf(postDeps) == OutOps(outs, |outs|, t)
              else inSyncobjs == []
      ensures Held(Owed(old(Now()), postDeps).refs, inSyncobjs) == refs && Owed(old(Now()), postDeps).chains == chains
    {
      ret := ParsePostDeps(outs, t, nomemOut);
      if ret != 0 { return; }
      ret := ParseDeps(ins, t, nomemIn);
    }

    // A submission, start to end: initErr, waitErr and lockErr are the outcomes of the steps around the
    // two lookups. Whatever fails, and if nothing does, every reference and every chain node is back
    // where it was or with the object that took it over.
    method Exec(ins: seq<Desc>, outs: seq<Desc>, t: Handles, initErr: int, nomemOut: bool, nomemIn: bool,
                waitErr: int, lockErr: int)
      returns (ret: int)
      requires GoodHandles(t)
      modifies this
      ensures Now() == old(Now())
      ensures ret == Either(ParseErr(ins, outs, t, initErr, nomemOut, nomemIn), Either(waitErr, lockErr))
      ensures ops == old(ops) + Signalled(ret, outs, t)
                     + ResetOnes(ParseErr(ins, outs, t, initErr, nomemOut, nomemIn), ins, t)
      ensures |given| == |old(given)| + if ret == 0 then |set k | 0 <= k < |outs| && outs[k].point != 0| else 0
      ensures ret != 0 ==> given == old(given)
    {
      inSyncobjs, postDeps := [], [];
      assert ops + [] == ops && ops + [] + [] == ops;
      ghost var parseErr := ParseErr(ins, outs, t, initErr, nomemOut, nomemIn);
      ret := initErr;
      if ret == 0 { ret := Prepare(ins, outs, t, nomemOut, nomemIn); }
      assert ret == parseErr && Resets(inSyncobjs) == ResetOnes(parseErr, ins, t);
      if ret == 0 { ret := Either(waitErr, lockErr); }
      if ret == 0 {
        PointsOfOuts(outs, t);
        ProcessPostDeps(old(Now()));
      }
      assert ops == old(ops) + Signalled(ret, outs, t);
      Cleanup(old(Now()));
    }
  }

  function ParseErr(ins: seq<Desc>, outs: seq<Desc>, t: Handles, initErr: int, nomemOut: bool, nomemIn: bool): int {
    Either(initErr, Either(ListErr(outs, t, nomemOut, true), ListErr(ins, t, nomemIn, false)))
  }

  // What a submission does to the objects that take its out-fence, and to those marked for reset.
  function Signalled(ret: int, outs: seq<Desc>, t: Handles): seq<Op> {
    if ret == 0 then OutOps(outs, |outs|, t) else []
  }

  function ResetOnes(parseErr: int, ins: seq<Desc>, t: Handles): seq<Op> {
    if parseErr == 0 then Resets(InSlots(ins, |ins|, t)) else []
  }

  // The first of two steps' errors.
  function Either(a: int, b: int): int { if a != 0 then a else b }

  // ----- what the words above come to -----

  // The waits all succeed exactly when each descriptor can be read, carries no flag but RESET, has a fence
  // that can be waited for, and names an object if it is to be reset.
  lemma {:induction false} WaitsSucceedIff(ds: seq<Desc>, n: nat, t: Handles)
    requires n <= |ds|
    ensures FirstErr(ds, n, t, false) == 0 <==>
            forall k | 0 <= k < n :: ds[k].readable && ds[k].flags <= RESET &&
                                     ds[k].fenceErr == 0 == ds[k].waitErr &&
                                     (ds[k].flags == RESET ==> ds[k].handle in t)
  {
    if n > 0 { WaitsSucceedIff(ds, n - 1, t); }
  }

  // The out-fence has somewhere to go exactly when each descriptor can be read, carries no flag, names an
  // object, and gets a node if it has a point.
  lemma {:induction false} OutsSucceedIff(ds: seq<Desc>, n: nat, t: Handles)
    requires n <= |ds|
    ensures FirstErr(ds, n, t, true) == 0 <==>
            forall k | 0 <= k < n :: ds[k].readable && ds[k].flags == 0 && ds[k].handle in t &&
                                     (ds[k].point != 0 ==> ds[k].chainOk)
  {
    if n > 0 { OutsSucceedIff(ds, n - 1, t); }
  }

  // A failing list reports what is wrong with its first descriptor that fails.
  lemma {:induction false} FirstFailing(ds: seq<Desc>, n: nat, t: Handles, out: bool) returns (k: nat)
    requires n <= |ds| && FirstErr(ds, n, t, out) != 0
    ensures k < n && FirstErr(ds, k, t, out) == 0
    ensures var d, err := ds[k], FirstErr(ds, n, t, out);
            if !d.readable then err == EFAULT
            else if out then (err == EINVAL && (d.flags != 0 || d.handle !in t)) ||
                             (err == ENOMEM && d.flags == 0 && d.point != 0 && !d.chainOk)
            else if d.flags > RESET then err == EINVAL
            else err == d.fenceErr || (d.fenceErr == 0 && err == d.waitErr) ||
                 (d.fenceErr == d.waitErr == 0 && err == EINVAL && d.flags == RESET && d.handle !in t)
  {
    k := n - 1;
    if FirstErr(ds, k, t, out) != 0 { k := FirstFailing(ds, k, t, out); }
  }

  // Slot k keeps the object of descriptor k if that is to be reset, and is empty otherwise.
  lemma {:induction false} SlotAt(ds: seq<Desc>, n: nat, t: Handles, k: nat)
    requires k < n <= |ds|
    ensures |InSlots(ds, n, t)| == n
    ensures InSlots(ds, n, t)[k] == if ds[k].flags == RESET && ds[k].handle in t then t[ds[k].handle] else 0
  {
    if k < n - 1 { SlotAt(ds, n - 1, t, k); } else { SlotsLength(ds, n - 1, t); }
  }

  lemma {:induction false} SlotsLength(ds: seq<Desc>, n: nat, t: Handles)
    requires n <= |ds|
    ensures |InSlots(ds, n, t)| == n
  {
    if n > 0 { SlotsLength(ds, n - 1, t); }
  }

  lemma {:induction false} ResetsOfSlots(slots: seq<nat>, o: nat)
    ensures Reset(o) in Resets(slots) <==> o != 0 && o in slots
    ensures forall op | op in Resets(slots) :: op.Reset?
  {
    if slots != [] {
      var n := |slots| - 1;
      ResetsOfSlots(slots[..n], o);
      assert slots == slots[..n] + [slots[n]];
    }
  }

  // Once every descriptor has parsed, an object is reset exactly if some descriptor with RESET names it;
  // before that, none is.
  lemma ResetIff(parseErr: int, ins: seq<Desc>, t: Handles, o: nat)
    requires GoodHandles(t)
    ensures Reset(o) in ResetOnes(parseErr, ins, t) <==>
            parseErr == 0 &&
            exists k | 0 <= k < |ins| :: ins[k].flags == RESET && ins[k].handle in t && t[ins[k].handle] == o
    ensures forall op | op in ResetOnes(parseErr, ins, t) :: op.Reset?
  {
    var slots := InSlots(ins, |ins|, t);
    ResetsOfSlots(slots, o);
    SlotsLength(ins, |ins|, t);
    forall k | 0 <= k < |ins|
      ensures slots[k] == if ins[k].flags == RESET && ins[k].handle in t then t[ins[k].handle] else 0
    {
      SlotAt(ins, |ins|, t, k);
    }
  }

  lemma {:induction false} OutOpAt(ds: seq<Desc>, n: nat, t: Handles, k: nat)
    requires k < n <= |ds| && ds[k].handle in t
    ensures |OutOps(ds, n, t)| == n
    ensures OutOps(ds, n, t)[k] ==
            if ds[k].point != 0 then AddPoint(t[ds[k].handle], ds[k].point) else Replace(t[ds[k].handle])
  {
    if k < n - 1 { OutOpAt(ds, n - 1, t, k); } else { OutOpsLength(ds, n - 1, t); }
  }

  lemma {:induction false} OutOpsLength(ds: seq<Desc>, n: nat, t: Handles)
    requires n <= |ds|
    ensures |OutOps(ds, n, t)| == n
  {
    if n > 0 { OutOpsLength(ds, n - 1, t); }
  }

  // How many of the operations are timeline points, and take a node over.
  function Points(ops: seq<Op>): nat { |set k | 0 <= k < |ops| && ops[k].AddPoint?| }

  lemma PointsSnoc(ops: seq<Op>, op: Op)
    ensures Points(ops + [op]) == Points(ops) + if op.AddPoint? then 1 else 0
  {
    var before, all := set k | 0 <= k < |ops| && ops[k].AddPoint?,
                       set k | 0 <= k < |ops + [op]| && (ops + [op])[k].AddPoint?;
    assert all == before + if op.AddPoint? then {|ops|} else {};
  }

  // A successful submission adds a point for each descriptor that has one.
  lemma PointsOfOuts(ds: seq<Desc>, t: Handles)
    ensures Points(OutOps(ds, |ds|, t)) == |set k | 0 <= k < |ds| && ds[k].point != 0|
  {
    var ops := OutOps(ds, |ds|, t);
    OutOpsLength(ds, |ds|, t);
    forall k | 0 <= k < |ds| ensures ops[k].AddPoint? <==> ds[k].point != 0 { OutOpKind(ds, |ds|, t, k); }
    assert (set k | 0 <= k < |ops| && ops[k].AddPoint?) == set k | 0 <= k < |ds| && ds[k].point != 0;
  }

  lemma {:induction false} OutOpKind(ds: seq<Desc>, n: nat, t: Handles, k: nat)
    requires k < n <= |ds|
    ensures |OutOps(ds, n, t)| == n && (OutOps(ds, n, t)[k].AddPoint? <==> ds[k].point != 0)
  {
    if k < n - 1 { OutOpKind(ds, n - 1, t, k); } else { OutOpsLength(ds, n - 1, t); }
  }

  // Slots hold one reference for each time they name an object.
  lemma {:induction false} HeldCounts(base: multiset<nat>, slots: seq<nat>, o: nat)
    ensures Held(base, slots)[o] == base[o] + if o == 0 then 0 else multiset(slots)[o]
  {
    if slots != [] {
      var n := |slots| - 1;
      HeldCounts(base, slots[..n], o);
      assert slots == slots[..n] + [slots[n]];
    }
  }

  // Post-dependencies hold one reference each.
  lemma {:induction false} OwedRefs(base: Books, ps: seq<PostDep>)
    ensures Owed(base, ps).refs == base.refs + multiset(seq(|ps|, k requires 0 <= k < |ps| => ps[k].obj))
  {
    if ps != [] {
      var n := |ps| - 1;
      OwedRefs(base, ps[..n]);
      var objs := seq(n, k requires 0 <= k < n => ps[..n][k].obj);
      assert seq(|ps|, k requires 0 <= k < |ps| => ps[k].obj) == objs + [ps[n].obj];
    }
  }

  // And the nodes they name.
  lemma {:induction false} OwedNodes(base: Books, ps: seq<PostDep>)
    ensures Owed(base, ps).chains == Held(base.chains, seq(|ps|, k requires 0 <= k < |ps| => ps[k].chain))
  {
    if ps != [] {
      var n := |ps| - 1;
      OwedNodes(base, ps[..n]);
      var nodes := seq(n, k requires 0 <= k < n => ps[..n][k].chain);
      HeldSnoc(base.chains, nodes, ps[n].chain);
      assert seq(|ps|, k requires 0 <= k < |ps| => ps[k].chain) == nodes + [ps[n].chain];
    }
  }

  // Parsing gets through exactly if everything can be had, and reports the out-objects' trouble first.
  lemma ParsesIff(ins: seq<Desc>, outs: seq<Desc>, t: Handles, initErr: int, nomemOut: bool, nomemIn: bool)
    ensures ParseErr(ins, outs, t, initErr, nomemOut, nomemIn) == 0 <==>
            && initErr == 0 && (nomemOut ==> outs == []) && (nomemIn ==> ins == [])
            && (forall k | 0 <= k < |outs| :: outs[k].readable && outs[k].flags == 0 && outs[k].handle in t &&
                                              (outs[k].point != 0 ==> outs[k].chainOk))
            && (forall k | 0 <= k < |ins| :: ins[k].readable && ins[k].flags <= RESET &&
                                             ins[k].fenceErr == 0 == ins[k].waitErr &&
                                             (ins[k].flags == RESET ==> ins[k].handle in t))
    ensures var err := ParseErr(ins, outs, t, initErr, nomemOut, nomemIn);
            if initErr != 0 then err == initErr
            else if nomemOut && outs != [] then err == ENOMEM
            else if FirstErr(outs, |outs|, t, true) != 0 then err == FirstErr(outs, |outs|, t, true)
            else if nomemIn && ins != [] then err == ENOMEM
            else err == FirstErr(ins, |ins|, t, false)
  {
    OutsSucceedIff(outs, |outs|, t);
    WaitsSucceedIff(ins, |ins|, t);
  }

  lemma NothingToClear(ps: seq<PostDep>, i: nat)
    requires i < |ps| && ps[i].chain == 0
    ensures ps[i := ps[i].(chain := 0)] == ps
  {}

  lemma WithOut(m: multiset<nat>, x: nat)
    ensures x != 0 ==> x in With(m, x) && With(m, x) - multiset{x} == m
  {}

  lemma MoveOne(left: multiset<nat>, given: multiset<nat>, x: nat)
    ensures x in left + multiset{x} && left + multiset{x} - multiset{x} == left
    ensures left + (given + multiset{x}) == left + multiset{x} + given
  {}

  lemma WithTwo(m: multiset<nat>, x: nat, y: nat)
    ensures With(With(m, x), y) == With(With(m, y), x)
  {}

  // Clearing one slot's chain node takes just that node out of what is owed.
  lemma {:induction false} ClearAt(base: Books, ps: seq<PostDep>, i: nat)
    requires i < |ps|
    ensures var all, left := Owed(base, ps), Owed(base, ps[i := ps[i].(chain := 0)]);
            all.refs == left.refs && all.chains == With(left.chains, ps[i].chain)
  {
    var n, q := |ps| - 1, ps[i := ps[i].(chain := 0)];
    if i < n {
      ClearAt(base, ps[..n], i);
      assert q[..n] == ps[..n][i := ps[i].(chain := 0)];
      WithTwo(Owed(base, q[..n]).chains, ps[i].chain, ps[n].chain);
    } else {
      assert q[..n] == ps[..n];
    }
  }

  // cur is ps with the first i nodes taken over.
  ghost predicate Halfway(ps: seq<PostDep>, cur: seq<PostDep>, i: nat) {
    i <= |cur| == |ps| && cur == Cleared(ps[..i]) + ps[i..]
  }

  // The operations done once i slots are processed.
  function OpsBy(before: seq<Op>, ps: seq<PostDep>, i: nat): seq<Op>
    requires i <= |ps|
  {
    before + OpsOf(ps[..i])
  }

  function PointsBy(ps: seq<PostDep>, i: nat): nat
    requires i <= |ps|
  {
    Points(OpsOf(ps[..i]))
  }

  lemma HalfwayEnds(ps: seq<PostDep>, before: seq<Op>)
    ensures Halfway(ps, ps, 0) && OpsBy(before, ps, 0) == before && OpsBy(before, ps, |ps|) == before + OpsOf(ps)
    ensures forall cur :: Halfway(ps, cur, |ps|) ==> cur == Cleared(ps)
    ensures PointsBy(ps, 0) == 0 && PointsBy(ps, |ps|) == Points(OpsOf(ps))
  {
    assert ps[..0] == [] && ps[0..] == ps && ps[..|ps|] == ps && ps[|ps|..] == [];
  }

  lemma HalfwayStep(ps: seq<PostDep>, cur: seq<PostDep>, i: nat, before: seq<Op>)
    requires Halfway(ps, cur, i) && i < |ps|
    ensures cur[i] == ps[i] && Halfway(ps, cur[i := ps[i].(chain := 0)], i + 1)
    ensures OpsBy(before, ps, i) + [OpOf(ps[i])] == OpsBy(before, ps, i + 1)
    ensures PointsBy(ps, i + 1) == PointsBy(ps, i) + if OpOf(ps[i]).AddPoint? then 1 else 0
  {
    assert ps[..i + 1] == ps[..i] + [ps[i]] && ps[i..] == [ps[i]] + ps[i + 1..];
    DepsSnoc(Books(multiset{}, multiset{}), ps[..i], ps[i]);
    assert |Cleared(ps[..i])| == i;
    PointsSnoc(OpsOf(ps[..i]), OpOf(ps[i]));
    assert cur[i := ps[i].(chain := 0)] == Cleared(ps[..i]) + [ps[i].(chain := 0)] + ps[i + 1..];
  }

  lemma {:induction false} FirstErrStays(ds: seq<Desc>, n: nat, t: Handles, out: bool)
    requires n <= |ds| && FirstErr(ds, n, t, out) != 0
    ensures FirstErr(ds, |ds|, t, out) == FirstErr(ds, n, t, out)
    decreases |ds| - n
  {
    if n < |ds| { FirstErrStays(ds, n + 1, t, out); }
  }
}
