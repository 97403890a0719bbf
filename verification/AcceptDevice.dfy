// The work function of the accept transport, with the table it changes in place and the rings it
// drains and refills.
module AcceptDevice {
  import opened AcceptTable
  import opened Drain
  import opened Errno

  // The Resource Manager behind MEM_ACCEPT and MEM_RELEASE; the bodies pick a possible outcome.
  class ResourceManager {
    var accepted: map<nat, Parcel>

    constructor ()
      ensures accepted == map[]
    {
      accepted := map[];
    }

    method MemAccept(handle: nat, gpa: nat, size: nat) returns (ret: int, ghost f: Fate)
      modifies this
      ensures ret == Verdict(f) && (f.Rejected? ==> f.err in {EACCES, EIO})
      ensures f.Granted? || f.GrantedLost? ==> handle !in old(accepted)
      ensures accepted == if f.Granted? || f.GrantedLost? then old(accepted)[handle := Parcel(gpa, size)]
                          else old(accepted)
    {
      var fate: Fate := *;
      if fate.Rejected? && fate.err !in {EACCES, EIO} { fate := NothingLost; }
      if (fate.Granted? || fate.GrantedLost?) && handle in accepted { fate := Rejected(EACCES); }
      if fate.Granted? || fate.GrantedLost? { accepted := accepted[handle := Parcel(gpa, size)]; }
      f, ret := fate, Verdict(fate);
    }

    method MemRelease(handle: nat) returns (ret: int, ghost f: Fate)
      modifies this
      ensures ret == Verdict(f) && (f.Rejected? ==> f.err == EIO)
      ensures f.Granted? || f.GrantedLost? ==> handle in old(accepted)
      ensures accepted == if f.Granted? || f.GrantedLost? then old(accepted) - {handle} else old(accepted)
    {
      var fate: Fate := *;
      if fate.Rejected? && fate.err != EIO { fate := NothingLost; }
      if (fate.Granted? || fate.GrantedLost?) && handle !in accepted { fate := Rejected(EIO); }
      if fate.Granted? || fate.GrantedLost? { accepted := accepted - {handle}; }
      f, ret := fate, Verdict(fate);
    }
  }

  class Device {
    const rm: ResourceManager
    const available: bool
    var accepted: seq<Entry>
    // Buffers the device has filled, buffers it may fill, completions posted.
    var used: seq<(nat, Req)>
    var posted: seq<nat>
    var comps: seq<Comp>

    constructor (rm: ResourceManager, available: bool)
      ensures this.rm == rm && this.available == available
      ensures accepted == [] && used == [] && posted == seq(16, i => i) && comps == []
    {
      this.rm, this.available := rm, available;
      accepted, used, posted, comps := [], [], seq(16, i => i), [];
    }

    ghost function World(): World reads this, rm { AcceptTable.World(accepted, rm.accepted) }

    method DoAccept(handle: nat, gpa: nat, size: nat, entryMem: bool) returns (ret: int, ghost f: Fate)
      modifies this`accepted, rm
      ensures var r := Req(0, OP_ACCEPT, handle, gpa, size, REQ_SIZE, entryMem, true);
              && (World(), ret) == Serve(old(World()), r, available, f)
              && (AsksRm(old(World()), r, available) ==> RmCan(old(World()), r, f))
    {
      f := NothingLost;
      if !available {
        return ENODEV, f;
      }
      if handle == 0 || size == 0 {
        return EINVAL, f;
      }
      if !entryMem {
        return ENOMEM, f;
      }
      ret, f := rm.MemAccept(handle, gpa, size);
      if ret != 0 {
        return;
      }
      accepted := accepted + [Entry(gpa, size, handle)];
    }

    method DoRelease(gpa: nat) returns (ret: int, ghost f: Fate)
      modifies this`accepted, rm
      ensures var r := Req(0, OP_RELEASE, 0, gpa, 0, REQ_SIZE, true, true);
              && (World(), ret) == Serve(old(World()), r, available, f)
              && (AsksRm(old(World()), r, available) ==> RmCan(old(World()), r, f))
    {
      f := NothingLost;
      var i := 0;
      while i < |accepted|
        invariant i <= |accepted| && World() == old(World()) && f == NothingLost
        invariant forall j | 0 <= j < i :: accepted[j].gpa != gpa
      {
        if accepted[i].gpa == gpa {
          assert i == FirstAt(accepted, gpa);
          if !available {
            return ENODEV, f;
          }
          ret, f := rm.MemRelease(accepted[i].handle);
          if ret != 0 {
            return;
          }
          accepted := accepted[..i] + accepted[i + 1..];
          return;
        }
        i := i + 1;
      }
      assert FirstAt(accepted, gpa) == |accepted|;
      ret := ENOENT;
    }

    method ServeOne(req: Req) returns (ret: int, ghost f: Fate)
      modifies this`accepted, rm
      ensures (World(), ret) == Serve(old(World()), req, available, f)
      ensures AsksRm(old(World()), req, available) ==> RmCan(old(World()), req, f)
    {
      f := NothingLost;
      if req.written < REQ_SIZE {
        return EINVAL, f;
      }
      ghost var w := World();
      if req.op == OP_ACCEPT {
        ret, f := DoAccept(req.handle, req.gpa, req.size, req.entryMem);
      } else if req.op == OP_RELEASE {
        ret, f := DoRelease(req.gpa);
      } else {
        ret := EINVAL;
      }
      SameService(w, req, available, f);
    }

    method CompleteOne(buf: nat, req: Req) returns (ghost f: Fate)
      modifies this`accepted, this`comps, this`posted, rm
      ensures var (v, ret) := Serve(old(World()), req, available, f);
              World() == v && comps == old(comps) + Completion(req, ret) && posted == old(posted) + [buf]
      ensures AsksRm(old(World()), req, available) ==> RmCan(old(World()), req, f)
    {
      var ret;
      ret, f := ServeOne(req);
      if req.compMem { comps := comps + [Comp(req.reqId, ret)]; }
      posted := posted + [buf];
    }

    // Drain the request queue: serve, complete, and hand each buffer back to the device. late[k] are the
    // buffers the device fills while the k-th is served; the worker goes on until there are none.
    method Work(late: seq<seq<(nat, Req)>>) returns (ghost served: seq<(nat, Req)>, ghost fs: seq<Fate>)
      modifies this, rm
      ensures used == [] && served + Concat(From(late, |served|)) == old(used) + Concat(late) && |fs| == |served|
      ensures RmCanAll(old(World()), Requests(served), available, fs)
      ensures var (v, done) := ServeAll(old(World()), Requests(served), available, fs);
              World() == v && comps == old(comps) + done
      ensures posted == old(posted) + Buffers(served)
    {
      fs := [];
      var k := 0;
      ghost var all := used + Concat(late);
      DrainStart(used, late);
      assert all[..0] == [];
      while used != []
        invariant Partway(all, k, used, late)
        invariant Did(old(World()), old(comps), old(posted), all[..k], available, fs, World(), comps, posted)
        decreases |all| - k
      {
        DrainOne(all, k, used, late);
        var (buf, req) := used[0];
        used := used[1..] + Arriving(late, k);
        ghost var w, comps1, posted1 := World(), comps, posted;
        ghost var f := CompleteOne(buf, req);
        DidNext(old(World()), old(comps), old(posted), all, k, available, fs, f, w, comps1, posted1);
        fs := fs + [f];
        k := k + 1;
      }
      served := all[..k];
      DrainDone(all, k, late);
    }
  }

  // What serving a list of requests comes to, from a state with given completions and buffers.
  ghost predicate Did(w: World, comps0: seq<Comp>, posted0: seq<nat>, served: seq<(nat, Req)>, available: bool,
                      fs: seq<Fate>, v: World, comps: seq<Comp>, posted: seq<nat>)
  {
    && |fs| == |served| && RmCanAll(w, Requests(served), available, fs)
    && (var (v', done) := ServeAll(w, Requests(served), available, fs); v == v' && comps == comps0 + done)
    && posted == posted0 + Buffers(served)
  }

  function Buffers(filled: seq<(nat, Req)>): seq<nat> {
    if filled == [] then [] else Buffers(filled[..|filled| - 1]) + [filled[|filled| - 1].0]
  }

  function Requests(filled: seq<(nat, Req)>): (rs: seq<Req>)
    ensures |rs| == |filled|
  {
    if filled == [] then [] else Requests(filled[..|filled| - 1]) + [filled[|filled| - 1].1]
  }

  lemma DidNext(w: World, comps0: seq<Comp>, posted0: seq<nat>, all: seq<(nat, Req)>, k: nat, available: bool,
                fs: seq<Fate>, f: Fate, v: World, comps: seq<Comp>, posted: seq<nat>)
    requires k < |all| && Did(w, comps0, posted0, all[..k], available, fs, v, comps, posted)
    requires AsksRm(v, all[k].1, available) ==> RmCan(v, all[k].1, f)
    ensures var (v', ret) := Serve(v, all[k].1, available, f);
            Did(w, comps0, posted0, all[..k + 1], available, fs + [f],
                v', comps + Completion(all[k].1, ret), posted + [all[k].0])
  {
    var rs, c := Requests(all[..k]), Completion(all[k].1, Serve(v, all[k].1, available, f).1);
    var done := ServeAll(w, rs, available, fs).1;
    UpTo(all, k);
    ServeSnoc(w, rs, available, fs, all[k].1, f);
    Assoc(comps0, done, c);
    Assoc(posted0, Buffers(all[..k]), [all[k].0]);
  }

  lemma UpTo(all: seq<(nat, Req)>, k: nat)
    requires k < |all|
    ensures Requests(all[..k + 1]) == Requests(all[..k]) + [all[k].1]
    ensures Buffers(all[..k + 1]) == Buffers(all[..k]) + [all[k].0]
  {
    assert all[..k + 1][..k] == all[..k];
  }

  lemma Assoc<T>(a: seq<T>, b: seq<T>, c: seq<T>)
    ensures a + b + c == a + (b + c)
  {}

  // Only the fields an operation reads decide how it is served.
  lemma SameService(w: World, r: Req, available: bool, f: Fate)
    requires r.written >= REQ_SIZE
    ensures r.op == OP_ACCEPT ==>
              var q := Req(0, OP_ACCEPT, r.handle, r.gpa, r.size, REQ_SIZE, r.entryMem, true);
              && Serve(w, r, available, f) == Serve(w, q, available, f)
              && (AsksRm(w, r, available) <==> AsksRm(w, q, available)) && (RmCan(w, r, f) <==> RmCan(w, q, f))
    ensures r.op == OP_RELEASE ==>
              var q := Req(0, OP_RELEASE, 0, r.gpa, 0, REQ_SIZE, true, true);
              && Serve(w, r, available, f) == Serve(w, q, available, f)
              && (AsksRm(w, r, available) <==> AsksRm(w, q, available)) && (RmCan(w, r, f) <==> RmCan(w, q, f))
  {}

  lemma ServeSnoc(w: World, rs: seq<Req>, available: bool, fs: seq<Fate>, r: Req, f: Fate)
    requires |fs| == |rs| && RmCanAll(w, rs, available, fs)
    requires var v := ServeAll(w, rs, available, fs).0; AsksRm(v, r, available) ==> RmCan(v, r, f)
    ensures RmCanAll(w, rs + [r], available, fs + [f])
    ensures var (v, cs) := ServeAll(w, rs, available, fs);
            ServeAll(w, rs + [r], available, fs + [f])
              == (Serve(v, r, available, f).0, cs + Completion(r, Serve(v, r, available, f).1))
  {
    var rs', fs' := rs + [r], fs + [f];
    assert rs'[..|rs|] == rs && fs'[..|rs|] == fs;
    forall i | 0 <= i < |rs| ensures rs'[..i] == rs[..i] && fs'[..i] == fs[..i] {}
  }
}
