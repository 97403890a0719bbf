// The growable pool as a state machine over everything the driver and the host can do to it: the
// driver side holds the pool lock for each step, so runs interleave whole steps.
module PoolMachine {
  import opened Arith
  import opened Blocks
  import opened Errno
  import opened PoolHost

  // unit is the step size the device tree gave; step is 0 once growing has been switched off.
  // n counts the steps inside the access boundary.
  datatype Pool = Pool(size: nat, prealloc: nat, unit: nat, step: nat, n: nat) {
    // Where step k begins: prealloc + k * unit.
    function Off(k: nat): nat { if k == 0 then prealloc else Off(k - 1) + unit }
    function Backed(): nat { Off(n) }
  }

  datatype World = World(pool: Pool, live: set<Block>, host: Host)

  datatype Event =
    | Grow(share: ShareFate, gq: QueryFate)
    | Shrink(unshare: UnshareFate, sq: QueryFate)
    | Late(off: nat, grant: bool)
    | Take(got: seq<Block>, request: nat, m: nat)
    | Give(back: seq<Block>)

  function GrowVerdict(f: ShareFate, q: QueryFate): int {
    var r := ShareReply(f);
    if (r == ETIMEDOUT || r == EEXIST) && q == Answer(true) then 0 else r
  }

  function ShrinkVerdict(f: UnshareFate, q: QueryFate): int {
    var r := UnshareReply(f);
    if r != 0 && q == Answer(false) then 0 else r
  }

  // A grow succeeds if it was granted and said so, or if the reply was lost, or said that the range is
  // granted already, and the range is then reported backed. Otherwise the host's error stands.
  lemma GrowSucceedsIff(f: ShareFate, q: QueryFate)
    requires f.Refuse? ==> f.err != 0
    ensures GrowVerdict(f, q) == 0 <==>
              || f == Grant
              || (q == Answer(true) &&
                  (f.GrantLost? || f.RefuseLost? || f.Queued? || f.err == ETIMEDOUT || f.err == EEXIST))
    ensures GrowVerdict(f, q) == 0 || GrowVerdict(f, q) == if f.Refuse? then f.err else ETIMEDOUT
  {}

  // A shrink succeeds if it was done and said so, or if whatever error came the range is then reported
  // unbacked. The mapping counts as broken only if that was the reply and the query does not say so.
  lemma ShrinkSucceedsIff(f: UnshareFate, q: QueryFate)
    requires UnshareCan(f)
    ensures ShrinkVerdict(f, q) == 0 <==> f == Done || q == Answer(false)
    ensures ShrinkVerdict(f, q) == EUCLEAN <==> q != Answer(false) && (f == Broke || f == Keep(EUCLEAN))
    ensures f.DoneLost? || f.KeepLost? || f.BrokeLost? ==> ShrinkVerdict(f, q) in {0, ETIMEDOUT}
    ensures f.Keep? ==> ShrinkVerdict(f, q) in {0, f.err}
  {}

  predicate CanGrow(p: Pool) {
    p.step != 0 && p.Backed() < p.size && p.step <= p.size - p.Backed()
  }

  predicate CanShrink(p: Pool) {
    p.step != 0 && p.n > 0
  }

  predicate TopStepFree(p: Pool, live: set<Block>)
    requires p.n > 0
  {
    RangeFree(live, p.Off(p.n - 1), p.Backed())
  }

  ghost predicate Enabled(w: World, e: Event) {
    match e
    case Grow(f, q) => CanGrow(w.pool) && ShareCan(w.host, w.pool.Backed(), f)
    case Shrink(f, q) => CanShrink(w.pool) && TopStepFree(w.pool, w.live) && UnshareCan(f)
    case Late(off, _) => off in w.host.late
    case Take(got, request, m) => m > 0 && Carved(w.live, got, 0, w.pool.Backed(), request, m)
    case Give(back) => BlockSet(back) <= w.live
  }

  ghost predicate Fair(w: World, e: Event) {
    match e
    case Grow(f, q) => GrowAnswerFair(AfterShare(w.host, w.pool.Backed(), f), w.pool.Backed(), f, q)
    case Shrink(f, q) => ShrinkAnswerFair(f, q)
    case _ => true
  }

  ghost function Apply(w: World, e: Event): World {
    match e
    case Grow(f, q) =>
      w.(host := AfterShare(w.host, w.pool.Backed(), f),
         pool := if GrowVerdict(f, q) == 0 then w.pool.(n := w.pool.n + 1) else w.pool)
    case Shrink(f, q) =>
      if w.pool.n == 0 then w else
      var v := ShrinkVerdict(f, q);
      w.(host := AfterUnshare(w.host, w.pool.Off(w.pool.n - 1), f),
         pool := if v == 0 then w.pool.(n := w.pool.n - 1)
                 else if v == EUCLEAN then w.pool.(n := w.pool.n - 1, step := 0)
                 else w.pool)
    case Late(off, grant) => w.(host := AfterLate(w.host, off, grant))
    case Take(got, _, _) => w.(live := w.live + BlockSet(got))
    case Give(back) => w.(live := w.live - BlockSet(back))
  }

  ghost function After(w: World, es: seq<Event>): World
    decreases |es|
  {
    if es == [] then w else Apply(After(w, es[..|es| - 1]), es[|es| - 1])
  }

  // Every step of the run can happen.
  ghost predicate IsRun(w: World, es: seq<Event>) {
    forall i | 0 <= i < |es| :: Enabled(After(w, es[..i]), es[i])
  }

  // Every reply in the run is one the driver may rely on.
  ghost predicate IsFair(w: World, es: seq<Event>) {
    forall i | 0 <= i < |es| :: Fair(After(w, es[..i]), es[i])
  }

  // ----- the invariant -----

  ghost predicate Shape(p: Pool) {
    && p.Backed() <= p.size
    && (p.step == 0 || p.step == p.unit)
    && (p.unit == 0 ==> p.n == 0)
  }

  // Every step below the boundary is mapped, and every live block is below the boundary.
  ghost predicate Inv(w: World) {
    && Shape(w.pool)
    && (forall k: nat | k < w.pool.n :: w.pool.Off(k) in w.host.mapped)
    && (forall b | b in w.live :: 0 < b.len && b.End() <= w.pool.Backed())
  }

  // An address the guest can touch: in the floor shared at boot, or in a mapped step.
  ghost predicate Reachable(w: World, a: nat) {
    || a < w.pool.prealloc
    || exists k: nat :: w.pool.Off(k) in w.host.mapped && w.pool.Off(k) <= a < w.pool.Off(k + 1)
  }

  lemma {:induction false} OffIsAffine(p: Pool, k: nat)
    ensures p.Off(k) == p.prealloc + k * p.unit
  {
    if k > 0 {
      OffIsAffine(p, k - 1);
      assert k * p.unit == (k - 1) * p.unit + p.unit;
    }
  }

  lemma {:induction false} OffOrder(p: Pool, j: nat, k: nat)
    requires j < k
    ensures p.Off(j) + p.unit <= p.Off(k)
  {
    if j < k - 1 { OffOrder(p, j, k - 1); }
  }

  // Off does not depend on the step switch or the boundary.
  lemma {:induction false} OffFrame(p: Pool, p': Pool, k: nat)
    requires p.prealloc == p'.prealloc && p.unit == p'.unit
    ensures p.Off(k) == p'.Off(k)
  {
    if k > 0 { OffFrame(p, p', k - 1); }
  }

  lemma GrowSafeIff(w: World, f: ShareFate, q: QueryFate)
    requires Inv(w) && Enabled(w, Grow(f, q))
    ensures Inv(Apply(w, Grow(f, q))) <==> Fair(w, Grow(f, q))
  {
    var p, w' := w.pool, Apply(w, Grow(f, q));
    OffFrame(p, w'.pool, w'.pool.n);
    OffFrame(p, w'.pool, p.n);
    forall k: nat | k < p.n ensures w'.pool.Off(k) in w'.host.mapped {
      OffFrame(p, w'.pool, k);
      assert p.Off(k) in w.host.mapped;
    }
    if Inv(w') && w'.pool.n == p.n + 1 { assert w'.pool.Off(p.n) in w'.host.mapped; }
  }

  lemma ShrinkSafeIff(w: World, f: UnshareFate, q: QueryFate)
    requires Inv(w) && Enabled(w, Shrink(f, q))
    ensures Inv(Apply(w, Shrink(f, q))) <==> Fair(w, Shrink(f, q))
  {
    var p, w' := w.pool, Apply(w, Shrink(f, q));
    OffFrame(p, w'.pool, w'.pool.n);
    OffFrame(p, w'.pool, p.n - 1);
    forall k: nat | k < p.n - 1 ensures w'.pool.Off(k) in w'.host.mapped {
      OffFrame(p, w'.pool, k);
      assert p.Off(k) in w.host.mapped;
      OffOrder(p, k, p.n - 1);
    }
    assert p.Off(p.n - 1) in w.host.mapped;
    if Inv(w') && w'.pool.n == p.n { assert w'.pool.Off(p.n - 1) in w'.host.mapped; }
  }

  lemma OthersKeepInv(w: World, e: Event)
    requires Inv(w) && Enabled(w, e) && (e.Late? || e.Take? || e.Give?)
    ensures Inv(Apply(w, e))
  {
    if e.Take? { PiecesNonEmpty(w, e.got, e.request, e.m); }
  }

  // The fairness of replies is exactly what a step needs to stay safe.
  lemma StepSafeIff(w: World, e: Event)
    requires Inv(w) && Enabled(w, e)
    ensures Inv(Apply(w, e)) <==> Fair(w, e)
  {
    match e
    case Grow(f, q) => GrowSafeIff(w, f, q);
    case Shrink(f, q) => ShrinkSafeIff(w, f, q);
    case _ => OthersKeepInv(w, e);
  }

  lemma PiecesNonEmpty(w: World, got: seq<Block>, request: nat, m: nat)
    requires m > 0 && Carved(w.live, got, 0, w.pool.Backed(), request, m)
    ensures forall b | b in BlockSet(got) :: 0 < b.len && b.End() <= w.pool.Backed()
  {}

  // Safety over whole runs: whatever the host does, as long as its answers are fair, every byte of
  // every live block can be touched.
  lemma {:induction false} LiveBlocksStayReachable(w: World, es: seq<Event>)
    requires Inv(w) && IsRun(w, es) && IsFair(w, es)
    ensures Inv(After(w, es))
    ensures forall b, a: nat | b in After(w, es).live && b.off <= a < b.End() :: Reachable(After(w, es), a)
    decreases |es|
  {
    if es != [] {
      var init, last := es[..|es| - 1], es[|es| - 1];
      assert forall i | 0 <= i < |init| :: init[..i] == es[..i];
      LiveBlocksStayReachable(w, init);
      StepSafeIff(After(w, init), last);
    }
    var w' := After(w, es);
    forall b, a: nat | b in w'.live && b.off <= a < b.End() ensures Reachable(w', a) {
      InvMapsPrefix(w', a);
    }
  }

  lemma InvMapsPrefix(w: World, a: nat)
    requires Inv(w) && a < w.pool.Backed()
    ensures Reachable(w, a)
  {
    if a >= w.pool.prealloc {
      var k := StepOf(w.pool, w.pool.n, a);
      assert w.pool.Off(k) in w.host.mapped;
    }
  }

  lemma {:induction false} StepOf(p: Pool, n: nat, a: nat) returns (k: nat)
    requires p.prealloc <= a < p.Off(n)
    ensures k < n && p.Off(k) <= a < p.Off(k + 1)
  {
    if a < p.Off(n - 1) { k := StepOf(p, n - 1, a); } else { k := n - 1; }
  }

  // es is a fairly answered run from w to w'.
  ghost predicate Runs(w: World, es: seq<Event>, w': World) {
    IsRun(w, es) && IsFair(w, es) && After(w, es) == w'
  }

  lemma RunsSnoc(w: World, es: seq<Event>, w': World, e: Event)
    requires Runs(w, es, w') && Enabled(w', e) && Fair(w', e)
    ensures Runs(w, es + [e], Apply(w', e))
  {
    var es' := es + [e];
    assert es'[..|es|] == es;
    assert forall i | 0 <= i <= |es| :: es'[..i] == es[..i];
  }

  lemma RunsInit(w: World, es: seq<Event>, w': World)
    requires Runs(w, es, w') && es != []
    ensures var init, last := es[..|es| - 1], es[|es| - 1]; var v := After(w, init);
            Runs(w, init, v) && Enabled(v, last) && Fair(v, last) && w' == Apply(v, last)
  {
    var init := es[..|es| - 1];
    assert forall i | 0 <= i < |init| :: init[..i] == es[..i];
  }

  lemma JoinLast(es: seq<Event>, fs: seq<Event>)
    requires fs != []
    ensures es + fs == es + fs[..|fs| - 1] + [fs[|fs| - 1]]
  {}

  lemma {:induction false} RunsJoin(w: World, es: seq<Event>, w': World, fs: seq<Event>, w'': World)
    requires Runs(w, es, w') && Runs(w', fs, w'')
    ensures Runs(w, es + fs, w'')
    decreases |fs|
  {
    if fs == [] {
      assert es + fs == es;
    } else {
      var init, last := fs[..|fs| - 1], fs[|fs| - 1];
      RunsInit(w', fs, w'');
      var v := After(w', init);
      RunsJoin(w, es, w', init, v);
      RunsSnoc(w, es + init, v, last);
      JoinLast(es, fs);
    }
  }

  // ----- the ranges named to the host -----

  // Offset and length the driver puts in a SHARE or UNSHARE.
  function Named(p: Pool, e: Event): (int, nat)
    requires e.Grow? || e.Shrink?
  {
    if e.Grow? then (p.Backed(), p.step) else (p.Backed() - p.step, p.step)
  }

  ghost predicate SameWindow(p: Pool, p': Pool) {
    p.size == p'.size && p.prealloc == p'.prealloc && p.unit == p'.unit
  }

  ghost predicate OneStep(p: Pool, off: int, len: nat) {
    && len == p.unit > 0 && p.prealloc <= off && off + len <= p.size
    && exists k: nat :: off == p.prealloc + k * len
  }

  lemma ShapeStep(w: World, e: Event)
    requires Shape(w.pool) && Enabled(w, e)
    ensures Shape(Apply(w, e).pool) && SameWindow(w.pool, Apply(w, e).pool)
  {
    OffFrame(w.pool, Apply(w, e).pool, Apply(w, e).pool.n);
  }

  lemma NamesOneStep(w: World, e: Event)
    requires Shape(w.pool) && Enabled(w, e) && (e.Grow? || e.Shrink?)
    ensures OneStep(w.pool, Named(w.pool, e).0, Named(w.pool, e).1)
  {
    var p := w.pool;
    var k := if e.Grow? then p.n else p.n - 1;
    OffIsAffine(p, k);
    assert Named(p, e).0 == p.prealloc + k * p.unit;
  }

  lemma {:induction false} ShapeOverRuns(w: World, es: seq<Event>)
    requires Shape(w.pool) && IsRun(w, es)
    ensures Shape(After(w, es).pool) && SameWindow(w.pool, After(w, es).pool)
    decreases |es|
  {
    if es != [] {
      var init, last := es[..|es| - 1], es[|es| - 1];
      assert forall i | 0 <= i < |init| :: init[..i] == es[..i];
      ShapeOverRuns(w, init);
      ShapeStep(After(w, init), last);
    }
  }

  // However the host answers, every range named is one whole step of the growable part.
  lemma NamedRangesAreSteps(w: World, es: seq<Event>, i: nat)
    requires Shape(w.pool) && IsRun(w, es) && i < |es| && (es[i].Grow? || es[i].Shrink?)
    ensures var (off, len) := Named(After(w, es[..i]).pool, es[i]); OneStep(w.pool, off, len)
  {
    var before := es[..i];
    assert forall j | 0 <= j < i :: before[..j] == es[..j];
    ShapeOverRuns(w, before);
    NamesOneStep(After(w, before), es[i]);
  }

  // ----- a step granted behind the driver's back -----

  // With a truthful answer, a grow moves the boundary exactly when the step is mapped, so a step is
  // never skipped and a step the host already granted is adopted.
  lemma GrowFollowsMapping(w: World, f: ShareFate, q: QueryFate)
    requires Enabled(w, Grow(f, q)) && ShareReply(f) in {0, ETIMEDOUT, EEXIST}
    requires q == Answer(w.pool.Backed() in AfterShare(w.host, w.pool.Backed(), f).mapped)
    ensures var w' := Apply(w, Grow(f, q));
            w'.pool.n == (if w.pool.Backed() in w'.host.mapped then w.pool.n + 1 else w.pool.n)
  {}

  // The step at the boundary is granted and mapped although the driver does not know: its SHARE was
  // served and the reply lost, or served late, or the driver was loaded again.
  ghost predicate Stranded(w: World) {
    CanGrow(w.pool) && w.pool.Backed() in w.host.granted && w.pool.Backed() in w.host.mapped
  }

  lemma LostGrantStrands(w: World, e: int)
    requires Enabled(w, Grow(GrantLost, NoAnswer(e)))
    ensures Stranded(Apply(w, Grow(GrantLost, NoAnswer(e)))) && Apply(w, Grow(GrantLost, NoAnswer(e))).pool == w.pool
  {}

  // Nothing but a step of the boundary itself changes that: shrinks name lower steps.
  lemma StrandedStays(w: World, e: Event)
    requires Inv(w) && Stranded(w) && Enabled(w, e) && Apply(w, e).pool == w.pool
    ensures Stranded(Apply(w, e))
  {
    if e.Shrink? { OffOrder(w.pool, w.pool.n - 1, w.pool.n); }
  }

  lemma {:induction false} StrandedOverRuns(w: World, es: seq<Event>)
    requires Inv(w) && Stranded(w) && IsRun(w, es) && IsFair(w, es)
    requires forall i | 0 <= i <= |es| :: After(w, es[..i]).pool == w.pool
    ensures Inv(After(w, es)) && Stranded(After(w, es))
    decreases |es|
  {
    LiveBlocksStayReachable(w, es);
    if es != [] {
      var init := es[..|es| - 1];
      assert forall i | 0 <= i <= |init| :: init[..i] == es[..i];
      StrandedOverRuns(w, init);
      assert es[..|es|] == es;
      StrandedStays(After(w, init), es[|es| - 1]);
    }
  }

  // After any run that leaves the boundary where it is, allocations, frees and failed attempts included,
  // the step is still there for the taking: the next grow names it, cannot be granted it again, and takes
  // it in as soon as the query is answered truthfully, whether its own reply says EEXIST or is lost.
  lemma StrandedStepIsAdopted(w: World, es: seq<Event>, f: ShareFate)
    requires Inv(w) && Stranded(w) && Runs(w, es, After(w, es))
    requires forall i | 0 <= i <= |es| :: After(w, es[..i]).pool == w.pool
    requires Enabled(After(w, es), Grow(f, Answer(true))) && ShareReply(f) in {EEXIST, ETIMEDOUT}
    ensures var all := es + [Grow(f, Answer(true))];
            Runs(w, all, After(w, all)) && After(w, all).pool == w.pool.(n := w.pool.n + 1)
  {
    StrandedOverRuns(w, es);
    var v, g := After(w, es), Grow(f, Answer(true));
    assert es[..|es|] == es;
    assert v.pool == w.pool;
    GrowFollowsMapping(v, f, Answer(true));
    RunsSnoc(w, es, v, g);
    assert Apply(v, g).pool == w.pool.(n := w.pool.n + 1);
  }

  // Without the answered query after a lost UNSHARE, a live block ends up in memory the guest cannot
  // touch.
  lemma UnansweredShrinkIsUnsafe()
    ensures exists w: World, es: seq<Event>, b: Block ::
              Inv(w) && IsRun(w, es) && b in After(w, es).live && !Reachable(After(w, es), b.off)
  {
    var w := World(Pool(2 * SZ_2M, 0, SZ_2M, SZ_2M, 1), {}, Host({0}, {0}, {}));
    var b := Block(0, PAGE);
    var e1, e2 := Shrink(DoneLost, NoAnswer(ETIMEDOUT)), Take([b], PAGE, PAGE);
    var es := [e1, e2];
    assert es[..0] == [] && es[..1] == [e1] && es[..2] == es && [e1][..0] == [];
    assert w.pool.Off(0) == 0 && w.pool.Off(1) == SZ_2M;
    var w1 := Apply(w, e1);
    assert After(w, [e1]) == w1 && w1.host.mapped == {};
    assert IsPow2(PAGE) by { assert PAGE == 4096; SmallPow2(); }
    assert SumLen([b]) == PAGE by { assert [b][1..] == []; }
    assert Enabled(w1, e2);
    assert b in After(w, es).live;
    assert After(w, es).host.mapped == {};
  }

  lemma SmallPow2()
    ensures IsPow2(4096)
  {
    assert IsPow2(16) && IsPow2(256);
  }

  // One fairly answered step, as a run.
  lemma OneStepRun(w: World, e: Event)
    requires Inv(w) && Enabled(w, e) && Fair(w, e)
    ensures Inv(Apply(w, e)) && Runs(w, [e], Apply(w, e))
  {
    StepSafeIff(w, e);
    assert Runs(w, [], w);
    RunsSnoc(w, [], w, e);
    assert [] + [e] == [e];
  }

  lemma BoundaryAfterGrow(p: Pool)
    ensures p.(n := p.n + 1).Backed() == p.Backed() + p.unit
  {
    OffFrame(p, p.(n := p.n + 1), p.n);
  }

  lemma BoundaryAfterShrink(p: Pool, step: nat)
    requires p.n > 0
    ensures p.(n := p.n - 1, step := step).Backed() == p.Off(p.n - 1) == p.Backed() - p.unit
  {
    OffFrame(p, p.(n := p.n - 1, step := step), p.n - 1);
  }

  // ----- growing switched off on the way -----

  // Step i of the run is an UNSHARE that left the host unable to restore the mapping.
  ghost predicate Breaks(es: seq<Event>, i: nat) {
    i < |es| && es[i].Shrink? && ShrinkVerdict(es[i].unshare, es[i].sq) == EUCLEAN
  }

  // Some such step came with more than one step still above the boundary of w.
  ghost predicate BreaksHigh(w: World, es: seq<Event>) {
    exists i: nat :: Breaks(es, i) && After(w, es[..i]).pool.n > w.pool.n + 1
  }

  // Growing and shrinking end with the first such step.
  lemma {:induction false} BrokenIsLast(w: World, es: seq<Event>, i: nat)
    requires IsRun(w, es) && Breaks(es, i)
    ensures After(w, es).pool.step == 0 && After(w, es).pool.n == After(w, es[..i]).pool.n - 1
    decreases |es|
  {
    var init, last := es[..|es| - 1], es[|es| - 1];
    assert forall j | 0 <= j <= |init| :: init[..j] == es[..j];
    var v := After(w, init);
    assert Enabled(v, last);
    if i < |init| { BrokenIsLast(w, init, i); }
  }

  lemma {:induction false} UnbrokenKeepsStep(w: World, es: seq<Event>)
    requires IsRun(w, es) && forall i: nat :: !Breaks(es, i)
    ensures After(w, es).pool.step == w.pool.step
    decreases |es|
  {
    if es != [] {
      var init, last := es[..|es| - 1], es[|es| - 1];
      assert forall j | 0 <= j <= |init| :: init[..j] == es[..j];
      forall i: nat ensures !Breaks(init, i) { assert !Breaks(es, i); }
      UnbrokenKeepsStep(w, init);
      assert !Breaks(es, |init|);
    }
  }

  // Step i of the run is an UNSHARE that failed for good or for now.
  ghost predicate Fails(es: seq<Event>, i: nat) {
    i < |es| && es[i].Shrink? && ShrinkVerdict(es[i].unshare, es[i].sq) !in {0, EUCLEAN}
  }

  ghost predicate FailsHigh(w: World, es: seq<Event>) {
    exists i: nat :: Fails(es, i) && After(w, es[..i]).pool.n > w.pool.n
  }

  ghost predicate FailsLast(es: seq<Event>) {
    forall i: nat | Fails(es, i) :: i == |es| - 1
  }

  // Shrinking was stopped, one way or the other, before everything above the boundary of w was gone.
  ghost predicate StopsHigh(w: World, es: seq<Event>) { BreaksHigh(w, es) || FailsHigh(w, es) }

  // A failed shrink at the end leaves the boundary where it is, and growing on.
  lemma FailureKeepsHeight(w: World, es: seq<Event>, i: nat)
    requires IsRun(w, es) && Fails(es, i) && i == |es| - 1
    ensures After(w, es).pool == After(w, es[..i]).pool && !BreaksHigh(w, es)
  {
    var init := es[..i];
    assert forall j | 0 <= j <= i :: init[..j] == es[..j];
    var v := After(w, init);
    assert Enabled(v, es[i]);
    FailureChangesNothing(v, es[i]);
    NothingBroke(w, es, i);
  }

  lemma NothingBroke(w: World, es: seq<Event>, i: nat)
    requires IsRun(w, es) && Fails(es, i) && i == |es| - 1 && After(w, es[..i]).pool.step != 0
    ensures forall k: nat :: !Breaks(es, k)
  {
    RunPrefix(w, es, i);
    if k: nat :| Breaks(es, k) {
      assert Breaks(es[..i], k);
      BrokenIsLast(w, es[..i], k);
    }
  }

  lemma RunPrefix(w: World, es: seq<Event>, i: nat)
    requires IsRun(w, es) && i <= |es|
    ensures IsRun(w, es[..i])
  {
    assert forall j | 0 <= j <= i :: es[..i][..j] == es[..j];
  }

  lemma FailureChangesNothing(v: World, e: Event)
    requires Enabled(v, e) && Fails([e], 0)
    ensures Apply(v, e).pool == v.pool && v.pool.step != 0
  {}

  // If a run goes on shrinking until it is stopped or has nothing left to give back, it ends higher exactly
  // when it was stopped too early.
  lemma HigherIff(w: World, es: seq<Event>)
    requires IsRun(w, es) && FailsLast(es)
    requires (forall i: nat :: !Fails(es, i)) && After(w, es).pool.step == w.pool.step ==>
               After(w, es).pool.n <= w.pool.n
    ensures After(w, es).pool.n > w.pool.n <==> StopsHigh(w, es)
  {
    if i: nat :| Fails(es, i) {
      FailureKeepsHeight(w, es, i);
    } else if i: nat :| Breaks(es, i) {
      BrokenIsLast(w, es, i);
      OnlyOneBreaks(w, es, i);
    } else {
      UnbrokenKeepsStep(w, es);
    }
  }

  lemma OnlyOneBreaks(w: World, es: seq<Event>, i: nat)
    requires IsRun(w, es) && Breaks(es, i)
    ensures BreaksHigh(w, es) <==> After(w, es[..i]).pool.n > w.pool.n + 1
  {
    BrokenIsLast(w, es, i);
    if k: nat :| Breaks(es, k) && After(w, es[..k]).pool.n > w.pool.n + 1 { BrokenIsLast(w, es, k); }
  }

  // Step i of the run is a SHARE that moved the boundary.
  ghost predicate Grew(es: seq<Event>, i: nat) {
    i < |es| && es[i].Grow? && GrowVerdict(es[i].share, es[i].gq) == 0
  }

  // Without shrinks a run ends higher exactly when a grow succeeded.
  lemma {:induction false} HigherIffGrew(w: World, es: seq<Event>)
    requires IsRun(w, es) && forall e | e in es :: !e.Shrink?
    ensures After(w, es).pool.n >= w.pool.n && (After(w, es).pool.n > w.pool.n <==> exists i: nat :: Grew(es, i))
    decreases |es|
  {
    if es != [] {
      var n := |es| - 1;
      var init := es[..n];
      assert forall j | 0 <= j <= n :: init[..j] == es[..j];
      HigherIffGrew(w, init);
      assert es[n] in es;
      if i: nat :| Grew(es, i) { assert i == n || Grew(init, i); }
      if i: nat :| Grew(init, i) { assert Grew(es, i); }
      if Grew(es, n) { assert After(w, es).pool.n == After(w, init).pool.n + 1; }
    }
  }

  // An empty pool of four steps that has grown n of them.
  function Grown(n: nat, step: nat): World {
    World(Pool(4 * SZ_2M, 0, SZ_2M, step, n), {}, Host(if n == 0 then {} else if n == 1 then {0} else {0, SZ_2M},
                                                      if n == 0 then {} else if n == 1 then {0} else {0, SZ_2M}, {}))
  }

  lemma GrownOffsets(n: nat, step: nat)
    ensures var p := Grown(n, step).pool; p.Off(0) == 0 && p.Off(1) == SZ_2M && p.Off(2) == 2 * SZ_2M
  {
    assert Grown(n, step).pool.Off(1) == SZ_2M;
  }

  lemma GrantTwice()
    ensures Inv(Grown(0, SZ_2M))
    ensures var g := Grow(Grant, NoAnswer(ENODEV)); Runs(Grown(0, SZ_2M), [g, g], Grown(2, SZ_2M))
  {
    var g := Grow(Grant, NoAnswer(ENODEV));
    GrownOffsets(0, SZ_2M);
    GrownOffsets(1, SZ_2M);
    assert Apply(Grown(0, SZ_2M), g) == Grown(1, SZ_2M);
    assert Apply(Grown(1, SZ_2M), g) == Grown(2, SZ_2M);
    OneStepRun(Grown(0, SZ_2M), g);
    RunsSnoc(Grown(0, SZ_2M), [g], Grown(1, SZ_2M), g);
    assert [g] + [g] == [g, g];
  }

  // Two steps grown for a request of three; the third is refused, and the first shrink breaks.
  lemma BrokenShrinkLeavesHigher()
    ensures var g := Grow(Grant, NoAnswer(ENODEV)); var w := Grown(0, SZ_2M);
            var es := [g, g, Grow(Refuse(ENOMEM), NoAnswer(ENODEV)), Shrink(Broke, NoAnswer(ENODEV))];
            && Inv(w) && Runs(w, es, After(w, es)) && BreaksHigh(w, es)
            && After(w, es).live == w.live && After(w, es).pool.Backed() == SZ_2M > w.pool.Backed()
  {
    var g, r := Grow(Grant, NoAnswer(ENODEV)), Grow(Refuse(ENOMEM), NoAnswer(ENODEV));
    var b := Shrink(Broke, NoAnswer(ENODEV));
    var w, w2 := Grown(0, SZ_2M), Grown(2, SZ_2M);
    GrantTwice();
    GrownOffsets(2, SZ_2M);
    RefusedThenBroken();
    RunsSnoc(w, [g, g], w2, r);
    RunsSnoc(w, [g, g] + [r], w2, b);
    var es := [g, g, r, b];
    assert [g, g] + [r] + [b] == es && es[..3] == [g, g] + [r];
    assert Breaks(es, 3);
  }

  lemma RefusedThenBroken()
    ensures var w, r, b := Grown(2, SZ_2M), Grow(Refuse(ENOMEM), NoAnswer(ENODEV)), Shrink(Broke, NoAnswer(ENODEV));
            && Enabled(w, r) && Fair(w, r) && Apply(w, r) == w && Enabled(w, b) && Fair(w, b)
            && Apply(w, b).pool == w.pool.(n := 1, step := 0)
            && Apply(w, b).pool.Backed() == SZ_2M && Apply(w, b).live == {}
  {
    var w := Grown(2, SZ_2M);
    GrownOffsets(2, SZ_2M);
    BoundaryAfterShrink(w.pool, 0);
  }

  // ----- how far growing can go -----

  // The highest boundary growing can reach: as many whole steps as fit above the floor.
  function Reach(p: Pool): nat
    requires p.prealloc <= p.size
  {
    if p.step == 0 then p.Backed() else p.Off(FloorDiv(p.size - p.prealloc, p.step))
  }

  lemma FloorBelow(p: Pool, k: nat)
    ensures p.prealloc <= p.Off(k)
  {
    OffIsAffine(p, k);
  }

  lemma ReachIsLimit(p: Pool)
    requires Shape(p) && p.step != 0 && p.prealloc <= p.size
    ensures p.Backed() <= Reach(p) <= p.size < Reach(p) + p.unit
    ensures p.size - p.Backed() < p.unit ==> Reach(p) == p.Backed()
  {
    var m := FloorDiv(p.size - p.prealloc, p.unit);
    OffIsAffine(p, m);
    OffIsAffine(p, p.n);
    DivFloor(p.size - p.prealloc, p.unit);
    MulStrict(p.n, m, p.unit);
    MulStrict(m, p.n, p.unit);
    if m >= p.n { MulMono(p.n, m, p.unit); }
  }
}
