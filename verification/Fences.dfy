// The fence driver: fences get increasing numbers as commands enter the ring and wait in one list
// until the host reports a number; that completes everything older on the same timeline.
module Fences {
  import opened Arith

  const HALF: int := 0x8000_0000

  // event: the file event to send with the signal, 0 if none.
  datatype Fence = Fence(id: nat, context: nat, event: nat)

  // dma_fence_is_later for a fence of a 32-bit timeline: the difference of the low words, signed.
  predicate IsLater(a: nat, b: nat) {
    0 < (a - b) % U32 < HALF
  }

  // Is c signalled along with s?
  predicate DueWith(s: Fence, c: Fence) {
    c.context == s.context && IsLater(s.id, c.id)
  }

  function Due(fs: seq<Fence>, s: Fence): seq<Fence> {
    if fs == [] then [] else (if DueWith(s, fs[0]) then [fs[0]] else []) + Due(fs[1..], s)
  }

  function NotDue(fs: seq<Fence>, s: Fence): seq<Fence> {
    if fs == [] then [] else (if DueWith(s, fs[0]) then [] else [fs[0]]) + NotDue(fs[1..], s)
  }

  function Without(fs: seq<Fence>, s: Fence): seq<Fence> {
    if fs == [] then [] else if fs[0] == s then fs[1..] else [fs[0]] + Without(fs[1..], s)
  }

  function Find(fs: seq<Fence>, id: nat): (i: nat)
    ensures i <= |fs|
    ensures i < |fs| ==> fs[i].id == id
    ensures forall j | 0 <= j < i :: fs[j].id != id
  {
    if fs == [] || fs[0].id == id then 0 else 1 + Find(fs[1..], id)
  }

  // Events sent for a list of signalled fences.
  function EventsOf(fs: seq<Fence>): seq<nat> {
    if fs == [] then [] else (if fs[0].event != 0 then [fs[0].event] else []) + EventsOf(fs[1..])
  }

  datatype State = State(current: nat, pending: seq<Fence>, emitted: seq<Fence>, signalled: seq<Fence>, sent: seq<nat>)

  datatype Event = Emit(context: nat, event: nat) | Response(id: nat)

  function Apply(s: State, e: Event): State {
    match e
    case Emit(c, ev) =>
      var f := Fence(s.current + 1, c, ev);
      s.(current := s.current + 1, pending := s.pending + [f], emitted := s.emitted + [f])
    case Response(id) =>
      var i := Find(s.pending, id);
      if i == |s.pending| then s
      else
        var f := s.pending[i];
        s.(pending := Without(NotDue(s.pending, f), f),
           signalled := s.signalled + Due(s.pending, f) + [f],
           sent := s.sent + EventsOf(Due(s.pending, f) + [f]))
  }

  // ----- the driver -----

  class FenceDriver {
    var current: nat
    var last: nat
    var fences: seq<Fence>
    ghost var emitted: seq<Fence>
    ghost var signalled: seq<Fence>
    var sent: seq<nat>

    ghost function View(): State reads this { State(current, fences, emitted, signalled, sent) }

    constructor ()
      ensures View() == State(0, [], [], [], [])
    {
      current, last, fences, sent := 0, 0, [], [];
      emitted, signalled := [], [];
    }

    method FenceEmit(context: nat, event: nat) returns (f: Fence)
      modifies this
      ensures View() == Apply(old(View()), Emit(context, event))
      ensures f == Fence(old(current) + 1, context, event) && current == f.id
      ensures fences == old(fences) + [f] && emitted == old(emitted) + [f]
      ensures signalled == old(signalled) && sent == old(sent)
    {
      current := current + 1;
      f := Fence(current, context, event);
      fences := fences + [f];
      emitted := emitted + [f];
    }

    method Signal(f: Fence)
      modifies this`signalled, this`sent
      ensures signalled == old(signalled) + [f] && sent == old(sent) + EventsOf([f])
    {
      signalled := signalled + [f];
      if f.event != 0 {
        sent := sent + [f.event];
      }
      assert [f][1..] == [];
    }

    // The inner loop: signal and unlink, in list order, every fence due with f.
    method SignalDue(f: Fence)
      modifies this`fences, this`signalled, this`sent
      ensures fences == NotDue(old(fences), f)
      ensures signalled == old(signalled) + Due(old(fences), f)
      ensures sent == old(sent) + EventsOf(Due(old(fences), f))
    {
      ghost var all, k := fences, 0;
      var i := 0;
      while i < |fences|
        invariant k <= |all| && i <= |fences|
        invariant fences[..i] == NotDue(all[..k], f) && fences[i..] == all[k..]
        invariant signalled == old(signalled) + Due(all[..k], f)
        invariant sent == old(sent) + EventsOf(Due(all[..k], f))
        decreases |fences| - i
      {
        var curr := fences[i];
        assert curr == fences[i..][0] == all[k];
        assert fences[i + 1..] == all[k + 1..] by { assert fences[i..][1..] == all[k..][1..]; }
        SplitSnoc(all, k, f);
        k := k + 1;
        if f.context != curr.context {
          i := i + 1;
          continue;
        }
        if !IsLater(f.id, curr.id) {
          i := i + 1;
          continue;
        }
        Signal(curr);
        fences := fences[..i] + fences[i + 1..];
      }
      assert k == |all| && all[..k] == all;
    }

    // A response carrying fence_id. The inner loop leaves the shared cursors at the end of the list,
    // and the outer loop stops right after it.
    method EventProcess(fenceId: nat)
      modifies this
      ensures View() == Apply(old(View()), Response(fenceId)) && last == fenceId
    {
      last := fenceId;
      var i := 0;
      while i < |fences|
        invariant i <= |fences| && View() == old(View()) && last == fenceId
        invariant forall j | 0 <= j < i :: fences[j].id != fenceId
      {
        var curr := fences[i];
        if fenceId != curr.id {
          i := i + 1;
          continue;
        }
        assert i == Find(fences, fenceId);
        ghost var all := fences;
        SignalDue(curr);
        EventsAppend(Due(all, curr), curr);
        Signal(curr);
        fences := Without(fences, curr);
        assert sent == old(sent) + EventsOf(Due(all, curr) + [curr]);
        return;
      }
    }
  }

  lemma {:induction false} DueAppend(fs: seq<Fence>, c: Fence, s: Fence)
    ensures Due(fs + [c], s) == Due(fs, s) + (if DueWith(s, c) then [c] else [])
    ensures NotDue(fs + [c], s) == NotDue(fs, s) + (if DueWith(s, c) then [] else [c])
  {
    if fs != [] {
      DueAppend(fs[1..], c, s);
      assert (fs + [c])[1..] == fs[1..] + [c];
    }
  }

  lemma {:induction false} EventsAppend(fs: seq<Fence>, c: Fence)
    ensures EventsOf(fs + [c]) == EventsOf(fs) + EventsOf([c])
  {
    if fs == [] {
      assert fs + [c] == [c];
    } else {
      EventsAppend(fs[1..], c);
      assert (fs + [c])[1..] == fs[1..] + [c];
    }
  }

  lemma SplitSnoc(all: seq<Fence>, k: nat, s: Fence)
    requires k < |all|
    ensures if DueWith(s, all[k])
            then Due(all[..k + 1], s) == Due(all[..k], s) + [all[k]] && NotDue(all[..k + 1], s) == NotDue(all[..k], s)
                 && EventsOf(Due(all[..k + 1], s)) == EventsOf(Due(all[..k], s)) + EventsOf([all[k]])
            else Due(all[..k + 1], s) == Due(all[..k], s) && NotDue(all[..k + 1], s) == NotDue(all[..k], s) + [all[k]]
  {
    assert all[..k + 1] == all[..k] + [all[k]];
    DueAppend(all[..k], all[k], s);
    EventsAppend(Due(all[..k], s), all[k]);
  }

  // ----- what a response means -----

  lemma {:induction false} DueMembers(fs: seq<Fence>, s: Fence, c: Fence)
    ensures c in Due(fs, s) <==> c in fs && DueWith(s, c)
    ensures c in NotDue(fs, s) <==> c in fs && !DueWith(s, c)
  {
    if fs != [] { DueMembers(fs[1..], s, c); }
  }

  lemma {:induction false} NothingLost(fs: seq<Fence>, s: Fence)
    ensures multiset(fs) == multiset(Due(fs, s)) + multiset(NotDue(fs, s))
  {
    if fs != [] {
      NothingLost(fs[1..], s);
      assert fs == [fs[0]] + fs[1..];
    }
  }

  lemma {:induction false} WithoutOne(fs: seq<Fence>, s: Fence)
    requires s in fs
    ensures multiset(fs) == multiset(Without(fs, s)) + multiset{s}
  {
    assert fs == [fs[0]] + fs[1..];
    if fs[0] != s { WithoutOne(fs[1..], s); }
  }

  // Numbers that differ by less than 2^31 compare as they should, and no others are sure to.
  lemma LaterInWindow(a: nat, b: nat)
    requires -HALF < a - b < HALF
    ensures IsLater(a, b) <==> a > b
  {}

  ghost predicate Increasing(fs: seq<Fence>) {
    forall i, j | 0 <= i < j < |fs| :: fs[i].id < fs[j].id
  }

  // Does f compare rightly with every other pending fence of its timeline?
  ghost predicate Compares(fs: seq<Fence>, f: Fence) {
    forall g | g in fs && g.context == f.context && g != f :: IsLater(f.id, g.id) <==> g.id < f.id
  }

  // The fence a response names, if it is pending, compares rightly.
  ghost predicate SeesOrder(s: State, id: nat) {
    var i := Find(s.pending, id);
    i < |s.pending| ==> Compares(s.pending, s.pending[i])
  }

  // It does when no pending fence of its own timeline is 2^31 numbers away.
  lemma WindowCompares(fs: seq<Fence>, f: Fence)
    requires forall g | g in fs && g.context == f.context && g != f :: g.id != f.id && -HALF < f.id - g.id < HALF
    ensures Compares(fs, f)
  {
    forall g | g in fs && g.context == f.context && g != f ensures IsLater(f.id, g.id) <==> g.id < f.id {
      LaterInWindow(f.id, g.id);
    }
  }

  // What is left after a response.
  lemma LeftPending(s: State, id: nat, c: Fence)
    requires Increasing(s.pending)
    ensures var i, left := Find(s.pending, id), Apply(s, Response(id)).pending;
            c in left <==> c in s.pending && (i < |s.pending| ==> c != s.pending[i] && !DueWith(s.pending[i], c))
  {
    var i := Find(s.pending, id);
    if i < |s.pending| {
      var f := s.pending[i];
      DueMembers(s.pending, f, c);
      NotDueSublist(s.pending, f);
      WithoutMembers(NotDue(s.pending, f), f, c);
    }
  }

  lemma SameIdSame(fs: seq<Fence>, f: Fence, g: Fence)
    requires Increasing(fs) && f in fs && g in fs && f.id == g.id
    ensures f == g
  {
    var i :| 0 <= i < |fs| && fs[i] == f;
    var j :| 0 <= j < |fs| && fs[j] == g;
    assert i == j;
  }

  // A response removes the pending fences of its timeline numbered no higher, no more and no less, if
  // and only if the fence it names compares rightly. It removes nothing if its number is not pending.
  lemma ResponseTakesOlderIff(s: State, id: nat)
    requires Increasing(s.pending)
    ensures var i, left := Find(s.pending, id), Apply(s, Response(id)).pending;
            SeesOrder(s, id) <==>
            forall c :: c in left <==>
              c in s.pending && !(i < |s.pending| && c.context == s.pending[i].context && c.id <= id)
  {
    var i, left := Find(s.pending, id), Apply(s, Response(id)).pending;
    forall c
      ensures c in left <==> c in s.pending && (i < |s.pending| ==> c != s.pending[i] && !DueWith(s.pending[i], c))
    {
      LeftPending(s, id, c);
    }
    if i < |s.pending| {
      forall c | c in s.pending && c.id == id ensures c == s.pending[i] { SameIdSame(s.pending, c, s.pending[i]); }
    }
  }

  lemma {:induction false} NotDueSublist(fs: seq<Fence>, s: Fence)
    requires Increasing(fs)
    ensures Increasing(NotDue(fs, s)) && Increasing(Due(fs, s))
  {
    if fs != [] {
      NotDueSublist(fs[1..], s);
      forall c | c in Due(fs[1..], s) || c in NotDue(fs[1..], s) ensures fs[0].id < c.id {
        DueMembers(fs[1..], s, c);
      }
    }
  }

  lemma {:induction false} WithoutMembers(fs: seq<Fence>, s: Fence, c: Fence)
    requires Increasing(fs)
    ensures c in Without(fs, s) <==> c in fs && c != s
    ensures Increasing(Without(fs, s))
  {
    if fs != [] {
      WithoutMembers(fs[1..], s, c);
      forall d | d in Without(fs[1..], s) ensures fs[0].id < d.id {
        WithoutMembers(fs[1..], s, d);
        var j :| 0 <= j < |fs| - 1 && fs[1..][j] == d;
        assert fs[0].id < fs[j + 1].id;
      }
    }
  }

  // ----- whole runs -----

  ghost predicate Ordered(s: State) {
    && Increasing(s.pending) && Increasing(s.emitted)
    && (forall f | f in s.emitted :: f.id <= s.current)
    && (forall f | f in s.pending :: f in s.emitted)
  }

  // Nothing emitted is lost or signalled twice.
  ghost predicate Conserved(s: State) {
    multiset(s.emitted) == multiset(s.signalled) + multiset(s.pending) && s.sent == EventsOf(s.signalled)
  }

  // Within a timeline, signals come out in increasing order, and everything signalled is older than
  // everything pending.
  ghost predicate InOrder(s: State) {
    && (forall i, j | 0 <= i < j < |s.signalled| && s.signalled[i].context == s.signalled[j].context ::
          s.signalled[i].id < s.signalled[j].id)
    && (forall f, g | f in s.signalled && g in s.pending && f.context == g.context :: f.id < g.id)
  }

  lemma SignalledIsEmitted(s: State, f: Fence)
    requires Conserved(s) && f in s.signalled
    ensures f in s.emitted
  {
    assert f in multiset(s.signalled) && f in multiset(s.emitted);
  }

  lemma EmitKeepsCount(s: State, c: nat, ev: nat)
    requires Ordered(s) && Conserved(s)
    ensures Ordered(Apply(s, Emit(c, ev))) && Conserved(Apply(s, Emit(c, ev)))
  {
    var f := Fence(s.current + 1, c, ev);
    var s' := Apply(s, Emit(c, ev));
    assert forall i | 0 <= i < |s.pending| :: s.pending[i] in s.pending;
    assert forall i | 0 <= i < |s.emitted| :: s.emitted[i] in s.emitted;
    assert multiset(s'.emitted) == multiset(s.emitted) + multiset{f};
    assert multiset(s'.pending) == multiset(s.pending) + multiset{f};
  }

  lemma EmitKeepsOrder(s: State, c: nat, ev: nat)
    requires Ordered(s) && Conserved(s) && InOrder(s)
    ensures InOrder(Apply(s, Emit(c, ev)))
  {
    forall f | f in s.signalled ensures f.id <= s.current { SignalledIsEmitted(s, f); }
  }

  lemma ResponseKeepsOrdered(s: State, id: nat)
    requires Ordered(s)
    ensures Ordered(Apply(s, Response(id)))
  {
    var i := Find(s.pending, id);
    if i < |s.pending| {
      var f := s.pending[i];
      var rest := NotDue(s.pending, f);
      NotDueSublist(s.pending, f);
      WithoutMembers(rest, f, f);
      forall c | c in Without(rest, f) ensures c in s.emitted {
        WithoutMembers(rest, f, c);
        DueMembers(s.pending, f, c);
      }
    }
  }

  lemma ResponseKeepsCount(s: State, id: nat)
    requires Conserved(s)
    ensures Conserved(Apply(s, Response(id)))
  {
    var i := Find(s.pending, id);
    if i < |s.pending| {
      var f := s.pending[i];
      BatchMoves(s.emitted, s.signalled, s.pending, f);
      EventsMove(s.signalled, Due(s.pending, f), f);
    }
  }

  lemma BatchMoves(emitted: seq<Fence>, signalled: seq<Fence>, pending: seq<Fence>, f: Fence)
    requires f in pending && multiset(emitted) == multiset(signalled) + multiset(pending)
    ensures multiset(emitted)
            == multiset(signalled + Due(pending, f) + [f]) + multiset(Without(NotDue(pending, f), f))
  {
    var batch := Due(pending, f) + [f];
    BatchLeaves(pending, f);
    assert signalled + Due(pending, f) + [f] == signalled + batch;
    Regroup(multiset(signalled), multiset(pending), multiset(batch), multiset(Without(NotDue(pending, f), f)));
  }

  lemma Regroup(s: multiset<Fence>, p: multiset<Fence>, batch: multiset<Fence>, left: multiset<Fence>)
    requires p == batch + left
    ensures s + p == s + batch + left
  {}

  lemma EventsMove(signalled: seq<Fence>, due: seq<Fence>, f: Fence)
    ensures EventsOf(signalled + due + [f]) == EventsOf(signalled) + EventsOf(due + [f])
  {
    assert signalled + due + [f] == signalled + (due + [f]);
    EventsConcat(signalled, due + [f]);
  }

  lemma BatchLeaves(fs: seq<Fence>, f: Fence)
    requires f in fs
    ensures multiset(fs) == multiset(Due(fs, f) + [f]) + multiset(Without(NotDue(fs, f), f))
  {
    NothingLost(fs, f);
    DueMembers(fs, f, f);
    WithoutOne(NotDue(fs, f), f);
  }

  lemma {:induction false} EventsConcat(a: seq<Fence>, b: seq<Fence>)
    ensures EventsOf(a + b) == EventsOf(a) + EventsOf(b)
  {
    if b == [] {
      assert a + b == a;
    } else {
      var init, last := b[..|b| - 1], b[|b| - 1];
      assert b == init + [last] && a + b == (a + init) + [last];
      EventsConcat(a, init);
      EventsAppend(a + init, last);
      EventsAppend(init, last);
    }
  }

  lemma {:induction false} EventsCount(fs: seq<Fence>)
    ensures |EventsOf(fs)| == |set k | 0 <= k < |fs| && fs[k].event != 0|
  {
    if fs != [] {
      var n := |fs| - 1;
      EventsCount(fs[..n]);
      EventsAppend(fs[..n], fs[n]);
      assert fs == fs[..n] + [fs[n]] && [fs[n]][1..] == [];
      assert (set k | 0 <= k < |fs| && fs[k].event != 0) ==
             (set k | 0 <= k < n && fs[..n][k].event != 0) + if fs[n].event != 0 then {n} else {};
    }
  }

  // A fence's event is sent in its turn: behind those of the fences before it, and none besides.
  lemma EventInTurn(fs: seq<Fence>, k: nat)
    requires k < |fs| && fs[k].event != 0
    ensures var n := |set j | 0 <= j < k && fs[j].event != 0|;
            n < |EventsOf(fs)| == (|set j | 0 <= j < |fs| && fs[j].event != 0|) && EventsOf(fs)[n] == fs[k].event
  {
    EventsCount(fs);
    EventsCount(fs[..k]);
    assert (set j | 0 <= j < k && fs[j].event != 0) == set j | 0 <= j < k && fs[..k][j].event != 0;
    EventsConcat(fs[..k], fs[k..]);
    assert fs == fs[..k] + fs[k..] && fs[k..][0] == fs[k];
  }

  // What one response signals: all of one timeline, increasing, ending with the reported fence.
  lemma BatchInOrder(s: State, id: nat)
    requires Ordered(s) && SeesOrder(s, id) && Find(s.pending, id) < |s.pending|
    ensures var f := s.pending[Find(s.pending, id)]; var batch := Due(s.pending, f) + [f];
            Increasing(batch) && forall c | c in batch :: c in s.pending && c.context == f.context && c.id <= id
  {
    var f := s.pending[Find(s.pending, id)];
    NotDueSublist(s.pending, f);
    forall c | c in Due(s.pending, f) ensures c in s.pending && c.context == f.context && c.id < f.id {
      DueMembers(s.pending, f, c);
    }
  }

  lemma ResponseKeepsOrder(s: State, id: nat)
    requires Ordered(s) && InOrder(s) && SeesOrder(s, id)
    ensures InOrder(Apply(s, Response(id)))
  {
    if Find(s.pending, id) < |s.pending| {
      BatchInOrder(s, id);
      SignalledInOrder(s, id);
      var s' := Apply(s, Response(id));
      forall a, g | a in s'.signalled && g in s'.pending && a.context == g.context
        ensures a.id < g.id
      {
        LeftIsNewer(s, id, a, g);
      }
    }
  }

  lemma SignalledInOrder(s: State, id: nat)
    requires Ordered(s) && InOrder(s) && SeesOrder(s, id) && Find(s.pending, id) < |s.pending|
    ensures var q := Apply(s, Response(id)).signalled;
            forall i, j | 0 <= i < j < |q| && q[i].context == q[j].context :: q[i].id < q[j].id
  {
    var f := s.pending[Find(s.pending, id)];
    var batch, q := Due(s.pending, f) + [f], Apply(s, Response(id)).signalled;
    BatchInOrder(s, id);
    assert q == s.signalled + batch;
    forall i, j | 0 <= i < j < |q| && q[i].context == q[j].context ensures q[i].id < q[j].id {
      if i < |s.signalled| <= j { assert q[j] in batch && q[i] in s.signalled; }
    }
  }

  lemma LeftIsNewer(s: State, id: nat, a: Fence, g: Fence)
    requires Ordered(s) && InOrder(s) && SeesOrder(s, id) && Find(s.pending, id) < |s.pending| && a.context == g.context
    requires a in Apply(s, Response(id)).signalled && g in Apply(s, Response(id)).pending
    ensures a.id < g.id
  {
    var f := s.pending[Find(s.pending, id)];
    LeftPending(s, id, g);
    if a !in s.signalled {
      BatchInOrder(s, id);
      assert a in Due(s.pending, f) + [f];
      if g.id == f.id { SameIdSame(s.pending, f, g); }
    }
  }

  // A fence of the timeline that compares wrongly is signalled too early or left behind.
  lemma WrongCompareBreaksOrder(s: State, id: nat, g: Fence)
    requires Ordered(s) && Find(s.pending, id) < |s.pending|
    requires var f := s.pending[Find(s.pending, id)];
             g in s.pending && g.context == f.context && g != f && (IsLater(f.id, g.id) <==> g.id > f.id)
    ensures !InOrder(Apply(s, Response(id)))
  {
    var f, s' := s.pending[Find(s.pending, id)], Apply(s, Response(id));
    var due := Due(s.pending, f);
    if g.id == f.id { SameIdSame(s.pending, f, g); }
    var last := |s'.signalled| - 1;
    assert s'.signalled == s.signalled + due + [f] && s'.signalled[last] == f;
    if IsLater(f.id, g.id) {
      DueMembers(s.pending, f, g);
      var j :| 0 <= j < |due| && due[j] == g;
      assert s'.signalled[|s.signalled| + j] == g;
    } else {
      LeftPending(s, id, g);
      assert f in s'.signalled && g in s'.pending;
    }
  }

  // Exactly then does a response keep every timeline in order.
  lemma ResponseOrderIff(s: State, id: nat)
    requires Ordered(s) && InOrder(s)
    ensures InOrder(Apply(s, Response(id))) <==> SeesOrder(s, id)
  {
    if SeesOrder(s, id) {
      ResponseKeepsOrder(s, id);
    } else {
      var f := s.pending[Find(s.pending, id)];
      var g :| g in s.pending && g.context == f.context && g != f && !(IsLater(f.id, g.id) <==> g.id < f.id);
      if g.id == f.id { SameIdSame(s.pending, f, g); }
      WrongCompareBreaksOrder(s, id, g);
    }
  }

  // After a response no fence of its number is pending; what it takes away is the one it names and those
  // that are older by the comparison, on the same timeline; and it adds nothing.
  lemma ResponseTakes(s: State, id: nat)
    requires Ordered(s)
    ensures var left := Apply(s, Response(id)).pending;
            && (forall c | c in left :: c in s.pending && c.id != id)
            && (forall c | c in s.pending && c !in left ::
                  exists f :: f in s.pending && f.id == id && f.context == c.context && (c == f || IsLater(id, c.id)))
  {
    var i, left := Find(s.pending, id), Apply(s, Response(id)).pending;
    forall c | c in left ensures c in s.pending && c.id != id {
      LeftPending(s, id, c);
      if i < |s.pending| && c.id == id { SameIdSame(s.pending, c, s.pending[i]); }
    }
    forall c | c in s.pending && c !in left
      ensures exists f :: f in s.pending && f.id == id && f.context == c.context && (c == f || IsLater(id, c.id))
    {
      LeftPending(s, id, c);
      assert s.pending[i] in s.pending;
    }
  }

  ghost predicate Run(ss: seq<State>, es: seq<Event>) {
    && |ss| == |es| + 1 && ss[0] == State(0, [], [], [], [])
    && forall i | 0 <= i < |es| :: ss[i + 1] == Apply(ss[i], es[i])
  }

  // Over any run and any responses: what was emitted is what was signalled and what is pending, each
  // once, and each event was sent with its fence.
  lemma {:induction false} EveryFenceOnce(ss: seq<State>, es: seq<Event>, i: nat)
    requires Run(ss, es) && i <= |es|
    ensures Ordered(ss[i]) && Conserved(ss[i])
  {
    if i > 0 {
      EveryFenceOnce(ss, es, i - 1);
      match es[i - 1]
      case Emit(c, ev) => EmitKeepsCount(ss[i - 1], c, ev);
      case Response(id) =>
        ResponseKeepsOrdered(ss[i - 1], id);
        ResponseKeepsCount(ss[i - 1], id);
    }
  }

  ghost predicate Reached(s: State) { exists ss, es :: Run(ss, es) && s == ss[|es|] }

  lemma ReachedStep(s: State, e: Event)
    requires Reached(s)
    ensures Reached(Apply(s, e))
  {
    var ss, es :| Run(ss, es) && s == ss[|es|];
    ss, es := Extend(ss, es, e);
  }

  lemma ReachedStart()
    ensures Reached(State(0, [], [], [], []))
  {
    assert Run([State(0, [], [], [], [])], []);
  }

  lemma ReachedIsSound(s: State)
    requires Reached(s)
    ensures Ordered(s) && Conserved(s)
  {
    var ss, es :| Run(ss, es) && s == ss[|es|];
    EveryFenceOnce(ss, es, |es|);
  }

  lemma StepOrderIff(s: State, e: Event)
    requires Ordered(s) && Conserved(s) && InOrder(s)
    ensures InOrder(Apply(s, e)) <==> (e.Response? ==> SeesOrder(s, e.id))
  {
    match e
    case Emit(c, ev) => EmitKeepsOrder(s, c, ev);
    case Response(id) => ResponseOrderIff(s, id);
  }

  ghost predicate OrderedUpTo(ss: seq<State>, i: nat)
    requires i < |ss|
  {
    forall k | 0 <= k <= i :: InOrder(ss[k])
  }

  // Each fence reported in the first i steps compared rightly with those pending on its own timeline.
  ghost predicate SeenUpTo(ss: seq<State>, es: seq<Event>, i: nat)
    requires i <= |es| < |ss|
  {
    forall j | 0 <= j < i && es[j].Response? :: SeesOrder(ss[j], es[j].id)
  }

  lemma UpToLast(ss: seq<State>, es: seq<Event>, i: nat)
    requires 0 < i <= |es| < |ss|
    ensures OrderedUpTo(ss, i) <==> OrderedUpTo(ss, i - 1) && InOrder(ss[i])
    ensures SeenUpTo(ss, es, i) <==>
              SeenUpTo(ss, es, i - 1) && (es[i - 1].Response? ==> SeesOrder(ss[i - 1], es[i - 1].id))
    ensures OrderedUpTo(ss, i - 1) ==> InOrder(ss[i - 1])
  {
    if OrderedUpTo(ss, i - 1) && InOrder(ss[i]) {
      forall k | 0 <= k <= i ensures InOrder(ss[k]) { if k < i { assert InOrder(ss[k]); } }
    }
  }

  // Over every run: the timelines stay in order throughout if and only if every comparison was right.
  lemma {:induction false} TimelinesInOrderIff(ss: seq<State>, es: seq<Event>, i: nat)
    requires Run(ss, es) && i <= |es|
    ensures OrderedUpTo(ss, i) <==> SeenUpTo(ss, es, i)
  {
    if i == 0 {
      assert InOrder(ss[0]);
    } else {
      TimelinesInOrderIff(ss, es, i - 1);
      UpToLast(ss, es, i);
      EveryFenceOnce(ss, es, i - 1);
      if OrderedUpTo(ss, i - 1) { StepOrderIff(ss[i - 1], es[i - 1]); }
    }
  }

  // ----- a run in which the order breaks -----

  lemma Extend(ss: seq<State>, es: seq<Event>, e: Event) returns (ss': seq<State>, es': seq<Event>)
    requires Run(ss, es)
    ensures Run(ss', es') && ss'[|es'|] == Apply(ss[|es|], e)
  {
    ss', es' := ss + [Apply(ss[|es|], e)], es + [e];
  }

  // Fence 1 of timeline 0 is pending, and n more, all of timeline 1, have come and gone.
  ghost predicate Waits(s: State, n: nat) {
    s.current == n + 1 && s.pending == [Fence(1, 0, 0)] && forall f | f in s.signalled :: f.context == 1
  }

  lemma {:induction false} LongWait(n: nat) returns (ss: seq<State>, es: seq<Event>)
    ensures Run(ss, es) && Waits(ss[|es|], n)
  {
    if n == 0 {
      var s0 := State(0, [], [], [], []);
      ss, es := [s0, Apply(s0, Emit(0, 0))], [Emit(0, 0)];
    } else {
      ss, es := LongWait(n - 1);
      PassesBy(ss[|es|], n - 1);
      ss, es := Extend(ss, es, Emit(1, 0));
      ss, es := Extend(ss, es, Response(n + 1));
    }
  }

  lemma TwoPending(a: Fence, b: Fence)
    requires a.id < b.id && !DueWith(b, a)
    ensures Find([a, b], b.id) == 1 && Due([a, b], b) == [] && Without(NotDue([a, b], b), b) == [a]
  {
    assert [a, b][1..] == [b] && [b][1..] == [];
    assert Due([b], b) == [] && NotDue([b], b) == [b];
    assert NotDue([a, b], b) == [a, b] && Without([b], b) == [];
  }

  lemma PassesBy(s: State, n: nat)
    requires Waits(s, n)
    ensures Waits(Apply(Apply(s, Emit(1, 0)), Response(n + 2)), n + 1)
  {
    TwoPending(Fence(1, 0, 0), Fence(n + 2, 1, 0));
  }

  lemma OvertakenAtLast(s: State)
    requires Waits(s, HALF - 1)
    ensures var s1 := Apply(s, Emit(0, 0));
            !InOrder(Apply(Apply(s1, Response(HALF + 1)), Response(1)))
  {
    var a, b := Fence(1, 0, 0), Fence(HALF + 1, 0, 0);
    TwoPending(a, b);
    var s1 := Apply(s, Emit(0, 0));
    assert s1.pending == [a, b];
    var s2 := Apply(s1, Response(HALF + 1));
    assert s2.pending == [a] && s2.signalled[|s.signalled|] == b;
    assert [a][1..] == [] && Due([a], a) == [];
    var s3 := Apply(s2, Response(1));
    assert s3.signalled[|s.signalled| + 1] == a && s3.signalled[|s.signalled|] == b;
  }

  // The condition can fail: a fence that waits while 2^31 - 1 others are emitted and answered is
  // overtaken by the next fence of its own timeline.
  lemma SomeRunBreaksOrder()
    ensures exists ss: seq<State>, es: seq<Event> :: Run(ss, es) && !InOrder(ss[|es|])
  {
    var ss, es := LongWait(HALF - 1);
    OvertakenAtLast(ss[|es|]);
    ss, es := Extend(ss, es, Emit(0, 0));
    ss, es := Extend(ss, es, Response(HALF + 1));
    ss, es := Extend(ss, es, Response(1));
  }
}
