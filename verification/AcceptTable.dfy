// The accept transport: requests from the host to accept or release a memparcel, served one at a time
// through the Resource Manager, and the table of parcels the guest has accepted.
module AcceptTable {
  import opened Errno

  const OP_ACCEPT := 1
  const OP_RELEASE := 2
  const REQ_SIZE: nat := 32

  datatype Entry = Entry(gpa: nat, size: nat, handle: nat)
  datatype Parcel = Parcel(gpa: nat, size: nat)
  // written: how many bytes of the buffer the device filled. entryMem, compMem: whether memory for the
  // table entry and for the completion can be had while it is served.
  datatype Req = Req(reqId: nat, op: nat, handle: nat, gpa: nat, size: nat, written: nat, entryMem: bool, compMem: bool)
  datatype Comp = Comp(reqId: nat, ret: int)

  // What becomes of the one RM request a host request leads to, if it leads to one.
  datatype Fate = Granted | Rejected(err: int) | GrantedLost | NothingLost

  // The driver's table and the RM's own record of accepted parcels, by handle.
  datatype World = World(table: seq<Entry>, rm: map<nat, Parcel>)

  function FirstAt(table: seq<Entry>, gpa: nat): (i: nat)
    ensures i <= |table|
    ensures i < |table| ==> table[i].gpa == gpa
    ensures forall j | 0 <= j < i :: table[j].gpa != gpa
  {
    if table == [] || table[0].gpa == gpa then 0 else 1 + FirstAt(table[1..], gpa)
  }

  // Whether serving the request involves the RM at all.
  predicate AsksRm(w: World, r: Req, available: bool) {
    && r.written >= REQ_SIZE
    && if r.op == OP_ACCEPT then available && r.handle != 0 && r.size != 0 && r.entryMem
       else r.op == OP_RELEASE && FirstAt(w.table, r.gpa) < |w.table| && available
  }

  // The RM accepts a handle it does not have and releases one it has. EACCES reports its refusal of an
  // ACCEPT; EIO its refusal of a RELEASE, or a message that could not be sent.
  predicate RmCan(w: World, r: Req, f: Fate) {
    && (f.Rejected? ==> f.err == EIO || (f.err == EACCES && r.op == OP_ACCEPT))
    && (f.Granted? || f.GrantedLost? ==>
          if r.op == OP_ACCEPT then r.handle !in w.rm
          else FirstAt(w.table, r.gpa) < |w.table| && w.table[FirstAt(w.table, r.gpa)].handle in w.rm)
  }

  function Verdict(f: Fate): int {
    match f
    case Granted => 0
    case Rejected(e) => e
    case _ => ETIMEDOUT
  }

  // What one request answers without the RM.
  function Refusal(w: World, r: Req, available: bool): int {
    if r.written < REQ_SIZE then EINVAL
    else if r.op == OP_ACCEPT then
      if !available then ENODEV else if r.handle == 0 || r.size == 0 then EINVAL else ENOMEM
    else if r.op == OP_RELEASE then
      if FirstAt(w.table, r.gpa) < |w.table| then ENODEV else ENOENT
    else EINVAL
  }

  function RmAfter(w: World, r: Req, f: Fate): map<nat, Parcel> {
    if !(f.Granted? || f.GrantedLost?) then w.rm
    else if r.op == OP_ACCEPT then w.rm[r.handle := Parcel(r.gpa, r.size)]
    else if FirstAt(w.table, r.gpa) < |w.table| then w.rm - {w.table[FirstAt(w.table, r.gpa)].handle}
    else w.rm
  }

  function TableAfter(w: World, r: Req, f: Fate): seq<Entry> {
    if !f.Granted? then w.table
    else if r.op == OP_ACCEPT then w.table + [Entry(r.gpa, r.size, r.handle)]
    else var i := FirstAt(w.table, r.gpa); if i < |w.table| then w.table[..i] + w.table[i + 1..] else w.table
  }

  function Serve(w: World, r: Req, available: bool, f: Fate): (World, int) {
    if AsksRm(w, r, available) then (World(TableAfter(w, r, f), RmAfter(w, r, f)), Verdict(f))
    else (w, Refusal(w, r, available))
  }

  ghost predicate Distinct(table: seq<Entry>) {
    forall i, j | 0 <= i < j < |table| :: table[i].handle != table[j].handle
  }

  function Handles(table: seq<Entry>): set<nat> {
    set e | e in table :: e.handle
  }

  // The table and the RM name the same parcels.
  ghost predicate Agree(w: World) {
    && Distinct(w.table) && Handles(w.table) == w.rm.Keys
    && forall e | e in w.table :: w.rm[e.handle] == Parcel(e.gpa, e.size)
  }

  lemma AcceptAgrees(w: World, e: Entry)
    requires Agree(w) && e.handle !in w.rm
    ensures Agree(World(w.table + [e], w.rm[e.handle := Parcel(e.gpa, e.size)]))
  {
    assert forall i | 0 <= i < |w.table| :: w.table[i].handle in Handles(w.table);
  }

  lemma InRemoved(table: seq<Entry>, k: nat, e: Entry)
    requires Distinct(table) && k < |table|
    ensures e in table[..k] + table[k + 1..] <==> e in table && e.handle != table[k].handle
  {
    var left := table[..k] + table[k + 1..];
    if e in left {
      var i :| 0 <= i < |left| && left[i] == e;
      assert e == table[if i < k then i else i + 1];
    }
    if e in table && e.handle != table[k].handle {
      var i :| 0 <= i < |table| && table[i] == e;
      assert e == left[if i < k then i else i - 1];
    }
  }

  lemma RemovedDistinct(table: seq<Entry>, k: nat)
    requires Distinct(table) && k < |table|
    ensures Distinct(table[..k] + table[k + 1..])
  {}

  lemma ReleaseAgrees(w: World, k: nat)
    requires Agree(w) && k < |w.table|
    ensures Agree(World(w.table[..k] + w.table[k + 1..], w.rm - {w.table[k].handle}))
  {
    var left, gone := w.table[..k] + w.table[k + 1..], w.table[k].handle;
    forall e ensures e in left <==> e in w.table && e.handle != gone { InRemoved(w.table, k, e); }
    RemovedDistinct(w.table, k);
    LeftAgrees(w, left, gone);
  }

  lemma LeftAgrees(w: World, left: seq<Entry>, gone: nat)
    requires Agree(w) && Distinct(left) && forall e :: e in left <==> e in w.table && e.handle != gone
    ensures Agree(World(left, w.rm - {gone}))
  {
    assert Handles(left) == Handles(w.table) - {gone};
  }

  // A step keeps the two in agreement exactly when no RM action went unreported.
  lemma AgreementKeptIff(w: World, r: Req, available: bool, f: Fate)
    requires Agree(w) && AsksRm(w, r, available) && RmCan(w, r, f)
    ensures Agree(Serve(w, r, available, f).0) <==> f != GrantedLost
  {
    var w', k := Serve(w, r, available, f).0, FirstAt(w.table, r.gpa);
    if f.Granted? {
      if r.op == OP_ACCEPT { AcceptAgrees(w, Entry(r.gpa, r.size, r.handle)); } else { ReleaseAgrees(w, k); }
    }
    if f.GrantedLost? {
      if r.op == OP_ACCEPT {
        assert r.handle in w'.rm && r.handle !in Handles(w'.table);
      } else {
        assert w'.table[k].handle !in w'.rm && w'.table[k].handle in Handles(w'.table);
      }
    }
  }

  function At(table: seq<Entry>, gpa: nat): seq<Entry> {
    if table == [] then [] else (if table[0].gpa == gpa then [table[0]] else []) + At(table[1..], gpa)
  }

  // A release takes the oldest entry of its address and leaves every other address alone.
  lemma {:induction false} ReleaseTakesOldest(table: seq<Entry>, gpa: nat, other: nat)
    requires FirstAt(table, gpa) < |table|
    ensures var i := FirstAt(table, gpa); var left := table[..i] + table[i + 1..];
            At(table, other) == (if other == gpa then [table[i]] else []) + At(left, other)
  {
    var i := FirstAt(table, gpa);
    var left := table[..i] + table[i + 1..];
    if i == 0 {
      assert left == table[1..];
    } else {
      ReleaseTakesOldest(table[1..], gpa, other);
      assert left[0] == table[0];
      assert left[1..] == table[1..][..i - 1] + table[1..][i..];
    }
  }

  // ----- what the host is told -----

  // Some entry of the table has the address.
  predicate Tracks(table: seq<Entry>, gpa: nat) { exists e | e in table :: e.gpa == gpa }

  // The request is one that the RM has to be asked about.
  predicate NeedsRm(v: World, r: Req, available: bool) {
    && r.written >= REQ_SIZE && available
    && ( || (r.op == OP_ACCEPT && r.handle != 0 && r.size != 0 && r.entryMem)
         || (r.op == OP_RELEASE && Tracks(v.table, r.gpa)))
  }

  // v and u are the worlds before and after a request; ret is what the host is told about it. Zero means
  // that the RM was asked, acted and said so, and that table and RM have moved accordingly; and each
  // error means one thing.
  ghost predicate Told(v: World, u: World, r: Req, available: bool, f: Fate, ret: int) {
    var full := r.written >= REQ_SIZE;
    var zero := r.op == OP_ACCEPT && available && (r.handle == 0 || r.size == 0);
    && (ret == 0 <==> NeedsRm(v, r, available) && f.Granted?)
    && (ret == EINVAL <==> !full || r.op !in {OP_ACCEPT, OP_RELEASE} || zero)
    && (ret == ENOENT <==> full && r.op == OP_RELEASE && !Tracks(v.table, r.gpa))
    && (ret == ENODEV <==> full && !available && (r.op == OP_ACCEPT || (r.op == OP_RELEASE && Tracks(v.table, r.gpa))))
    && (ret == ENOMEM <==> full && r.op == OP_ACCEPT && available && !zero && !r.entryMem)
    && (ret == ETIMEDOUT <==> NeedsRm(v, r, available) && (f.GrantedLost? || f.NothingLost?))
    && (NeedsRm(v, r, available) && f.Rejected? ==> ret == f.err)
    && (ret == 0 && r.op == OP_ACCEPT ==>
          u.table == v.table + [Entry(r.gpa, r.size, r.handle)] && u.rm == v.rm[r.handle := Parcel(r.gpa, r.size)])
    && (ret == 0 && r.op == OP_RELEASE ==>
          exists i | 0 <= i < |v.table| ::
            && v.table[i].gpa == r.gpa && (forall j | 0 <= j < i :: v.table[j].gpa != r.gpa)
            && u.table == v.table[..i] + v.table[i + 1..] && u.rm == v.rm - {v.table[i].handle})
    && (ret != 0 ==> u.table == v.table && (!f.GrantedLost? ==> u.rm == v.rm))
  }

  lemma ServingTells(v: World, r: Req, available: bool, f: Fate)
    requires AsksRm(v, r, available) ==> RmCan(v, r, f)
    ensures var (u, ret) := Serve(v, r, available, f); Told(v, u, r, available, f, ret)
  {
    var i := FirstAt(v.table, r.gpa);
    assert Tracks(v.table, r.gpa) <==> i < |v.table| by {
      if i < |v.table| { assert v.table[i] in v.table; }
    }
  }

  // ----- runs -----

  // One completion for each request, in order, for a given list of RM fates.
  // Without memory for it there is no completion, and the host times out.
  function Completion(r: Req, ret: int): seq<Comp> { if r.compMem then [Comp(r.reqId, ret)] else [] }

  function ServeAll(w: World, rs: seq<Req>, available: bool, fs: seq<Fate>): (World, seq<Comp>)
    requires |fs| == |rs|
    decreases |rs|
  {
    if rs == [] then (w, [])
    else
      var n := |rs| - 1;
      var (w1, cs) := ServeAll(w, rs[..n], available, fs[..n]);
      var (w2, ret) := Serve(w1, rs[n], available, fs[n]);
      (w2, cs + Completion(rs[n], ret))
  }

  ghost predicate RmCanAll(w: World, rs: seq<Req>, available: bool, fs: seq<Fate>)
    requires |fs| == |rs|
  {
    forall i | 0 <= i < |rs| ::
      var v := ServeAll(w, rs[..i], available, fs[..i]).0;
      AsksRm(v, rs[i], available) ==> RmCan(v, rs[i], fs[i])
  }

  lemma Shorter<T>(xs: seq<T>)
    requires |xs| > 0
    ensures forall i | 0 <= i <= |xs| - 1 :: xs[..|xs| - 1][..i] == xs[..i]
  {}

  lemma ServeLast(w: World, rs: seq<Req>, available: bool, fs: seq<Fate>)
    requires |fs| == |rs| > 0 && RmCanAll(w, rs, available, fs)
    ensures var n := |rs| - 1;
            && RmCanAll(w, rs[..n], available, fs[..n])
            && (var v := ServeAll(w, rs[..n], available, fs[..n]).0;
                AsksRm(v, rs[n], available) ==> RmCan(v, rs[n], fs[n]))
  {
    Shorter(rs);
    Shorter(fs);
  }

  function IdsOf(cs: seq<Comp>): seq<nat> { if cs == [] then [] else IdsOf(cs[..|cs| - 1]) + [cs[|cs| - 1].reqId] }

  function AnsweredIds(rs: seq<Req>): seq<nat> {
    if rs == [] then [] else AnsweredIds(rs[..|rs| - 1]) + if rs[|rs| - 1].compMem then [rs[|rs| - 1].reqId] else []
  }

  lemma {:induction false} CompletionsAnswer(w: World, rs: seq<Req>, available: bool, fs: seq<Fate>)
    requires |fs| == |rs|
    ensures IdsOf(ServeAll(w, rs, available, fs).1) == AnsweredIds(rs)
    decreases |rs|
  {
    if rs != [] {
      var n := |rs| - 1;
      CompletionsAnswer(w, rs[..n], available, fs[..n]);
      var (w1, cs) := ServeAll(w, rs[..n], available, fs[..n]);
      var c := Completion(rs[n], Serve(w1, rs[n], available, fs[n]).1);
      if c == [] { assert cs + c == cs; } else { assert (cs + c)[..|cs + c| - 1] == cs; }
    }
  }

  lemma {:induction false} IdsLength(cs: seq<Comp>)
    ensures |IdsOf(cs)| == |cs|
  {
    if cs != [] { IdsLength(cs[..|cs| - 1]); }
  }

  // Table and RM after the first k requests.
  function ServedTo(w: World, rs: seq<Req>, available: bool, fs: seq<Fate>, k: nat): World
    requires |fs| == |rs| && k <= |rs|
  {
    ServeAll(w, rs[..k], available, fs[..k]).0
  }

  // They agree after each of the requests.
  ghost predicate AgreedThroughout(w: World, rs: seq<Req>, available: bool, fs: seq<Fate>)
    requires |fs| == |rs|
  {
    forall k | 0 <= k <= |rs| :: Agree(ServedTo(w, rs, available, fs, k))
  }

  // No request that asked the RM was acted on without an answer.
  ghost predicate NoneLost(w: World, rs: seq<Req>, available: bool, fs: seq<Fate>)
    requires |fs| == |rs|
  {
    forall k | 0 <= k < |rs| :: AsksRm(ServedTo(w, rs, available, fs, k), rs[k], available) ==> fs[k] != GrantedLost
  }

  lemma ServedPrefix(w: World, rs: seq<Req>, available: bool, fs: seq<Fate>, k: nat)
    requires |fs| == |rs| > 0 && k <= |rs| - 1
    ensures ServedTo(w, rs[..|rs| - 1], available, fs[..|rs| - 1], k) == ServedTo(w, rs, available, fs, k)
  {
    Shorter(rs);
    Shorter(fs);
  }

  lemma AgreedUpToLast(w: World, rs: seq<Req>, available: bool, fs: seq<Fate>)
    requires |fs| == |rs| > 0
    ensures var n := |rs| - 1;
            AgreedThroughout(w, rs, available, fs) <==>
              AgreedThroughout(w, rs[..n], available, fs[..n]) && Agree(ServedTo(w, rs, available, fs, n + 1))
  {
    forall k | 0 <= k <= |rs| - 1
      ensures ServedTo(w, rs[..|rs| - 1], available, fs[..|rs| - 1], k) == ServedTo(w, rs, available, fs, k)
    {
      ServedPrefix(w, rs, available, fs, k);
    }
    var n := |rs| - 1;
    if AgreedThroughout(w, rs[..n], available, fs[..n]) && Agree(ServedTo(w, rs, available, fs, n + 1)) {
      forall k | 0 <= k <= |rs| ensures Agree(ServedTo(w, rs, available, fs, k)) {
        if k <= n { assert Agree(ServedTo(w, rs[..n], available, fs[..n], k)); }
      }
    }
    if AgreedThroughout(w, rs, available, fs) {
      forall k | 0 <= k <= n ensures Agree(ServedTo(w, rs[..n], available, fs[..n], k)) {
        assert Agree(ServedTo(w, rs, available, fs, k));
      }
    }
  }

  lemma NoneLostUpToLast(w: World, rs: seq<Req>, available: bool, fs: seq<Fate>)
    requires |fs| == |rs| > 0
    ensures var n := |rs| - 1;
            NoneLost(w, rs, available, fs) <==>
              NoneLost(w, rs[..n], available, fs[..n])
              && (AsksRm(ServedTo(w, rs, available, fs, n), rs[n], available) ==> fs[n] != GrantedLost)
  {
    forall k | 0 <= k <= |rs| - 1
      ensures ServedTo(w, rs[..|rs| - 1], available, fs[..|rs| - 1], k) == ServedTo(w, rs, available, fs, k)
    {
      ServedPrefix(w, rs, available, fs, k);
    }
  }

  lemma LastAgrees(w: World, rs: seq<Req>, available: bool, fs: seq<Fate>)
    requires |fs| == |rs| > 0 && RmCanAll(w, rs, available, fs)
    requires Agree(ServedTo(w, rs, available, fs, |rs| - 1))
    ensures var n := |rs| - 1;
            Agree(ServedTo(w, rs, available, fs, n + 1)) <==>
              (AsksRm(ServedTo(w, rs, available, fs, n), rs[n], available) ==> fs[n] != GrantedLost)
  {
    var n := |rs| - 1;
    var v := ServedTo(w, rs, available, fs, n);
    assert rs[..n + 1] == rs && fs[..n + 1] == fs;
    ServeLast(w, rs, available, fs);
    if AsksRm(v, rs[n], available) { AgreementKeptIff(v, rs[n], available, fs[n]); }
  }

  lemma {:induction false} AgreedIff(w: World, rs: seq<Req>, available: bool, fs: seq<Fate>)
    requires |fs| == |rs| && Agree(w) && RmCanAll(w, rs, available, fs)
    ensures AgreedThroughout(w, rs, available, fs) <==> NoneLost(w, rs, available, fs)
    decreases |rs|
  {
    if rs == [] {
      assert ServedTo(w, rs, available, fs, 0) == w;
    } else {
      var n := |rs| - 1;
      ServeLast(w, rs, available, fs);
      AgreedIff(w, rs[..n], available, fs[..n]);
      AgreedUpToLast(w, rs, available, fs);
      NoneLostUpToLast(w, rs, available, fs);
      if AgreedThroughout(w, rs[..n], available, fs[..n]) {
        ServedPrefix(w, rs, available, fs, n);
        LastAgrees(w, rs, available, fs);
      }
    }
  }

  // Where the completion of the k-th request stands among all.
  function Place(rs: seq<Req>, k: nat): nat
    requires k <= |rs|
  {
    |AnsweredIds(rs[..k])|
  }

  // The completion of the k-th request is there, and tells the host the truth about it.
  ghost predicate Answered(w: World, rs: seq<Req>, available: bool, fs: seq<Fate>, k: nat)
    requires |fs| == |rs| && k < |rs|
  {
    var cs := ServeAll(w, rs, available, fs).1;
    && Place(rs, k) < |cs| && cs[Place(rs, k)].reqId == rs[k].reqId
    && Told(ServedTo(w, rs, available, fs, k), ServedTo(w, rs, available, fs, k + 1), rs[k], available, fs[k],
            cs[Place(rs, k)].ret)
  }

  lemma LastAnswered(w: World, rs: seq<Req>, available: bool, fs: seq<Fate>)
    requires |fs| == |rs| > 0 && RmCanAll(w, rs, available, fs) && rs[|rs| - 1].compMem
    ensures Answered(w, rs, available, fs, |rs| - 1)
  {
    var n := |rs| - 1;
    ServeLast(w, rs, available, fs);
    var (v, cs) := ServeAll(w, rs[..n], available, fs[..n]);
    CompletionsAnswer(w, rs[..n], available, fs[..n]);
    IdsLength(cs);
    assert rs[..n + 1] == rs && fs[..n + 1] == fs;
    ServingTells(v, rs[n], available, fs[n]);
    var (u, ret) := Serve(v, rs[n], available, fs[n]);
    assert ServeAll(w, rs, available, fs) == (u, cs + [Comp(rs[n].reqId, ret)]);
  }

  lemma StaysAnswered(w: World, rs: seq<Req>, available: bool, fs: seq<Fate>, k: nat)
    requires |fs| == |rs| > 0 && k < |rs| - 1 && Answered(w, rs[..|rs| - 1], available, fs[..|rs| - 1], k)
    ensures Answered(w, rs, available, fs, k)
  {
    var n := |rs| - 1;
    Shorter(rs);
    assert Place(rs[..n], k) == Place(rs, k);
    ServedPrefix(w, rs, available, fs, k);
    ServedPrefix(w, rs, available, fs, k + 1);
    var cs := ServeAll(w, rs[..n], available, fs[..n]).1;
    assert cs <= ServeAll(w, rs, available, fs).1;
  }

  // Every completion a run posts tells the host the truth about its own request.
  lemma {:induction false} CompletionsTellTheTruth(w: World, rs: seq<Req>, available: bool, fs: seq<Fate>, k: nat)
    requires |fs| == |rs| && RmCanAll(w, rs, available, fs) && k < |rs| && rs[k].compMem
    ensures Answered(w, rs, available, fs, k)
    decreases |rs|
  {
    if k == |rs| - 1 {
      LastAnswered(w, rs, available, fs);
    } else {
      ServeLast(w, rs, available, fs);
      CompletionsTellTheTruth(w, rs[..|rs| - 1], available, fs[..|rs| - 1], k);
      StaysAnswered(w, rs, available, fs, k);
    }
  }

  // Over any requests, the table is the RM's accepted parcels throughout if and only if no request that
  // asked the RM was acted on without an answer. Completions answer, in
  // order, the requests that memory for one could be had for.
  lemma AgreementOverRunsIff(w: World, rs: seq<Req>, available: bool, fs: seq<Fate>)
    requires |fs| == |rs| && Agree(w) && RmCanAll(w, rs, available, fs)
    ensures AgreedThroughout(w, rs, available, fs) <==> NoneLost(w, rs, available, fs)
    ensures IdsOf(ServeAll(w, rs, available, fs).1) == AnsweredIds(rs)
  {
    AgreedIff(w, rs, available, fs);
    CompletionsAnswer(w, rs, available, fs);
  }
}
