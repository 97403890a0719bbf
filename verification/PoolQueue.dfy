// The pool request queue: many callers, each with a context the device owns until it answers, and a
// wait that can be given up. Steps interleave freely; answers come in any order and arbitrarily late.
module PoolQueue {
  import opened Arith
  
  datatype Request = Request(reqId: nat, op: nat, poolId: nat, offset: nat, len: nat)
  datatype Response = Response(ret: int, extra: nat)
  datatype Wait = Waiting | TimedOut | Returned(resp: Response)

  // frees counts kfree calls on the context.
  datatype Context = Context(req: Request, resp: Response, done: bool, wait: Wait, frees: nat)

  // A context is in the device's hands from the add to the drain of the used ring: first in ring, then
  // in used. log records what the device answered to what it read.
  datatype Answer = Answer(ctx: nat, req: Request, resp: Response)
  datatype State = State(ctxs: map<nat, Context>, asked: map<nat, Request>, ring: set<nat>, used: seq<nat>,
                         log: seq<Answer>, nextId: nat)

  datatype Event =
    | Submit(c: nat, op: nat, poolId: nat, offset: nat, len: nat)
    | AddFails(c: nat, err: int)
    | DeviceAnswers(c: nat, resp: Response)
    | Drain
    | Wake(c: nat)
    | GiveUp(c: nat)

  ghost predicate Enabled(s: State, e: Event) {
    match e
    case Submit(c, _, _, _, _) => c !in s.ctxs
    case AddFails(c, err) => c !in s.ctxs && err != 0
    case DeviceAnswers(c, _) => c in s.ring && c in s.ctxs
    case Drain => s.used != []
    case Wake(c) => c in s.ctxs && s.ctxs[c].wait == Waiting && s.ctxs[c].done
    case GiveUp(c) => c in s.ctxs && s.ctxs[c].wait == Waiting && !s.ctxs[c].done
  }

  // The context whose memory a step reads or writes.
  function Touches(s: State, e: Event): set<nat> {
    match e
    case DeviceAnswers(c, _) => {c}
    case Drain => if s.used == [] then {} else {s.used[0]}
    case Wake(c) => {c}
    case _ => {}
  }

  ghost function Apply(s: State, e: Event): State
    requires Enabled(s, e)
  {
    match e
    case Submit(c, op, poolId, offset, len) =>
      var req := Request(s.nextId, op, poolId, offset, len);
      s.(ctxs := s.ctxs[c := Context(req, Response(0, 0), false, Waiting, 0)], asked := s.asked[c := req],
         ring := s.ring + {c}, nextId := (s.nextId + 1) % U32)
    // The context is freed on the spot, but its id is used up.
    case AddFails(c, err) =>
      s.(ctxs := s.ctxs[c := Context(Request(0, 0, 0, 0, 0), Response(0, 0), false, Returned(Response(err, 0)), 1)],
         nextId := (s.nextId + 1) % U32)
    // The device reads the request out of the context and writes its answer back into it.
    case DeviceAnswers(c, resp) =>
      s.(ctxs := s.ctxs[c := s.ctxs[c].(resp := resp)], ring := s.ring - {c}, used := s.used + [c],
         log := s.log + [Answer(c, s.ctxs[c].req, resp)])
    // One turn of the callback loop: complete the oldest used context.
    case Drain =>
      var c := s.used[0];
      s.(ctxs := if c in s.ctxs then s.ctxs[c := s.ctxs[c].(done := true)] else s.ctxs, used := s.used[1..])
    case Wake(c) =>
      s.(ctxs := s.ctxs[c := s.ctxs[c].(wait := Returned(s.ctxs[c].resp), frees := s.ctxs[c].frees + 1)])
    case GiveUp(c) =>
      s.(ctxs := s.ctxs[c := s.ctxs[c].(wait := TimedOut)])
  }

  ghost predicate Init(s: State) {
    s.ctxs == map[] && s.asked == map[] && s.ring == {} && s.used == [] && s.log == [] && s.nextId == 0
  }

  // The device's hold on contexts: not done, not freed, in one place once.
  ghost predicate DeviceSide(s: State) {
    && (forall c | c in s.ring :: c in s.ctxs && !s.ctxs[c].done && s.ctxs[c].frees == 0 && c !in s.used)
    && (forall i | 0 <= i < |s.used| :: s.used[i] in s.ctxs && !s.ctxs[s.used[i]].done && s.ctxs[s.used[i]].frees == 0)
    && (forall i, j | 0 <= i < j < |s.used| :: s.used[i] != s.used[j])
  }

  // A context is freed by its caller alone, once, after it is done.
  ghost predicate CallerSide(s: State) {
    forall c | c in s.ctxs ::
      && s.ctxs[c].frees == (if s.ctxs[c].wait.Returned? then 1 else 0)
      && (c in s.asked ==> s.ctxs[c].req == s.asked[c])
      && (c in s.asked && s.ctxs[c].wait.Returned? ==> s.ctxs[c].done && s.ctxs[c].wait.resp == s.ctxs[c].resp)
      && (c !in s.asked ==> s.ctxs[c].wait.Returned? && !s.ctxs[c].done)
  }

  // Whatever has left the ring holds the device's one answer to what was asked.
  ghost predicate Answers(s: State) { Placed(s) && Logged(s) }

  ghost predicate Placed(s: State) {
    && (forall c | c in s.asked :: c in s.ctxs && (c in s.ring || c in s.used || s.ctxs[c].done))
    && (forall c | c in s.ring || c in s.used :: c in s.asked)
  }

  ghost predicate Logged(s: State) {
    && (forall c | c in s.asked && c !in s.ring :: c in s.ctxs && Answer(c, s.asked[c], s.ctxs[c].resp) in s.log)
    && (forall a | a in s.log :: a.ctx in s.asked && a.ctx !in s.ring && a.req == s.asked[a.ctx])
    && (forall i, j | 0 <= i < j < |s.log| :: s.log[i].ctx != s.log[j].ctx)
  }

  ghost predicate Inv(s: State) { DeviceSide(s) && CallerSide(s) && Answers(s) }

  lemma DeviceSideKept(s: State, e: Event)
    requires Inv(s) && Enabled(s, e)
    ensures DeviceSide(Apply(s, e))
  {
    match e
    case Drain => DrainDevice(s);
    case DeviceAnswers(c, resp) => AnswersDevice(s, c, resp);
    case _ => assert forall x | x in s.used :: exists i :: 0 <= i < |s.used| && s.used[i] == x;
  }

  lemma DrainDevice(s: State)
    requires DeviceSide(s) && Enabled(s, Drain)
    ensures DeviceSide(Apply(s, Drain))
  {
    assert s.used[0] in s.used;
  }

  lemma AnswersDevice(s: State, c: nat, resp: Response)
    requires DeviceSide(s) && Enabled(s, DeviceAnswers(c, resp))
    ensures DeviceSide(Apply(s, DeviceAnswers(c, resp)))
  {}

  lemma CallerSideKept(s: State, e: Event)
    requires Inv(s) && Enabled(s, e)
    ensures CallerSide(Apply(s, e))
  {
    if e.Drain? { assert s.used[0] in s.used; }
  }

  lemma AnswersKept(s: State, e: Event)
    requires Inv(s) && Enabled(s, e)
    ensures Answers(Apply(s, e))
  {
    match e
    case DeviceAnswers(c, resp) => DeviceAnswersKept(s, c, resp);
    case Drain => DrainKept(s);
    case _ =>
  }

  lemma DeviceAnswersKept(s: State, c: nat, resp: Response)
    requires Inv(s) && Enabled(s, DeviceAnswers(c, resp))
    ensures Answers(Apply(s, DeviceAnswers(c, resp)))
  {
    var s' := Apply(s, DeviceAnswers(c, resp));
    assert Placed(s') by { assert forall x :: x in s'.used <==> x in s.used || x == c; }
    DeviceAnswersLogged(s, c, resp);
  }

  lemma DeviceAnswersLogged(s: State, c: nat, resp: Response)
    requires Inv(s) && Enabled(s, DeviceAnswers(c, resp))
    ensures Logged(Apply(s, DeviceAnswers(c, resp)))
  {
    var s' := Apply(s, DeviceAnswers(c, resp));
    assert forall a :: a in s'.log <==> a in s.log || a == Answer(c, s.asked[c], resp);
  }

  lemma DrainKept(s: State)
    requires Inv(s) && Enabled(s, Drain)
    ensures Answers(Apply(s, Drain))
  {
    assert s.used[0] in s.used && forall c | c in s.used && c != s.used[0] :: c in s.used[1..];
  }

  // A run: its states and the events between them.
  ghost predicate Run(ss: seq<State>, es: seq<Event>) {
    && |ss| == |es| + 1 && Init(ss[0])
    && forall i | 0 <= i < |es| :: Enabled(ss[i], es[i]) && ss[i + 1] == Apply(ss[i], es[i])
  }

  lemma {:induction false} RunKeepsInv(ss: seq<State>, es: seq<Event>, i: nat)
    requires Run(ss, es) && i <= |es|
    ensures Inv(ss[i])
  {
    if i > 0 {
      RunKeepsInv(ss, es, i - 1);
      DeviceSideKept(ss[i - 1], es[i - 1]);
      CallerSideKept(ss[i - 1], es[i - 1]);
      AnswersKept(ss[i - 1], es[i - 1]);
    }
  }

  // In every run: a context is freed at most once and never while the device owns it; a step only
  // touches contexts that are not freed; and what a caller gets back is the one answer the device gave
  // to that caller's own request.
  lemma CallersGetTheirOwnAnswer(ss: seq<State>, es: seq<Event>, i: nat)
    requires Run(ss, es) && i <= |es|
    ensures var s := ss[i];
            && (forall c | c in s.ctxs :: s.ctxs[c].frees <= 1)
            && (forall c | c in s.ctxs && (c in s.ring || c in s.used) :: s.ctxs[c].frees == 0)
            && (forall c | c in s.asked && c in s.ctxs && s.ctxs[c].wait.Returned? ::
                  Answer(c, s.asked[c], s.ctxs[c].wait.resp) in s.log)
            && (forall a, b | a in s.log && b in s.log && a.ctx == b.ctx :: a == b)
    ensures i < |es| ==> forall c | c in Touches(ss[i], es[i]) :: c in ss[i].ctxs && ss[i].ctxs[c].frees == 0
  {
    RunKeepsInv(ss, es, i);
  }

  // How many requests were tried before event n; each takes the next id.
  function Tries(es: seq<Event>, n: nat): nat
    requires n <= |es|
  {
    if n == 0 then 0 else Tries(es, n - 1) + (if es[n - 1].Submit? || es[n - 1].AddFails? then 1 else 0)
  }

  // What the caller of event j asks for.
  function AskedBy(es: seq<Event>, j: nat): Request
    requires j < |es| && es[j].Submit?
  {
    Request(Tries(es, j) % U32, es[j].op, es[j].poolId, es[j].offset, es[j].len)
  }

  lemma {:induction false} IdsCount(ss: seq<State>, es: seq<Event>, i: nat)
    requires Run(ss, es) && i <= |es|
    ensures ss[i].nextId == Tries(es, i) % U32
  {
    if i > 0 {
      IdsCount(ss, es, i - 1);
      IdStep(ss[i - 1], es[i - 1], Tries(es, i - 1));
    }
  }

  lemma IdStep(s: State, e: Event, n: nat)
    requires Enabled(s, e) && s.nextId == n % U32
    ensures Apply(s, e).nextId == (n + (if e.Submit? || e.AddFails? then 1 else 0)) % U32
  {}

  lemma AskedIsKnown(ss: seq<State>, es: seq<Event>, i: nat, c: nat)
    requires Run(ss, es) && i <= |es| && c in ss[i].asked
    ensures c in ss[i].ctxs
  {
    RunKeepsInv(ss, es, i);
  }

  lemma AskedStays(s: State, e: Event, c: nat)
    requires Enabled(s, e) && c in s.asked && c in s.ctxs
    ensures c in Apply(s, e).asked && Apply(s, e).asked[c] == s.asked[c]
  {}

  lemma SubmitAsks(s: State, e: Event)
    requires Enabled(s, e) && e.Submit?
    ensures e.c in Apply(s, e).asked
    ensures Apply(s, e).asked[e.c] == Request(s.nextId, e.op, e.poolId, e.offset, e.len)
  {}

  // A request, once submitted, is what the device is asked for ever after.
  lemma {:induction false} SubmittedStays(ss: seq<State>, es: seq<Event>, i: nat, j: nat)
    requires Run(ss, es) && j < i <= |es| && es[j].Submit?
    ensures es[j].c in ss[i].asked && ss[i].asked[es[j].c] == AskedBy(es, j)
    decreases i
  {
    var s, e := ss[i - 1], es[i - 1];
    assert Enabled(s, e) && ss[i] == Apply(s, e);
    if j < i - 1 {
      SubmittedStays(ss, es, i - 1, j);
      AskedIsKnown(ss, es, i - 1, es[j].c);
      AskedStays(s, e, es[j].c);
    } else {
      IdsCount(ss, es, j);
      SubmitAsks(s, e);
    }
  }

  // Nothing is asked of the device that nobody submitted.
  lemma {:induction false} AskedWasSubmitted(ss: seq<State>, es: seq<Event>, i: nat, c: nat) returns (j: nat)
    requires Run(ss, es) && i <= |es| && c in ss[i].asked
    ensures j < i && es[j].Submit? && es[j].c == c
  {
    j := i - 1;
    if !(es[j].Submit? && es[j].c == c) { j := AskedWasSubmitted(ss, es, i - 1, c); }
  }

  // Nothing is in the log that the device did not answer, after it was asked.
  lemma {:induction false} LoggedWasAnswered(ss: seq<State>, es: seq<Event>, i: nat, a: Answer) returns (k: nat)
    requires Run(ss, es) && i <= |es| && a in ss[i].log
    ensures k < i && es[k] == DeviceAnswers(a.ctx, a.resp) && a.ctx in ss[k].asked
  {
    k := i - 1;
    RunKeepsInv(ss, es, k);
    if a in ss[k].log { k := LoggedWasAnswered(ss, es, k, a); }
  }

  // What a caller gets back is what the device answered after that caller's submission, having read the
  // operation, pool, offset and length of that very call.
  lemma AnswerIsToTheCall(ss: seq<State>, es: seq<Event>, i: nat, c: nat) returns (j: nat, k: nat)
    requires Run(ss, es) && i <= |es| && c in ss[i].asked && c in ss[i].ctxs && ss[i].ctxs[c].wait.Returned?
    ensures j < k < i && es[j].Submit? && es[j].c == c && es[k] == DeviceAnswers(c, ss[i].ctxs[c].wait.resp)
    ensures Answer(c, Request(Tries(es, j) % U32, es[j].op, es[j].poolId, es[j].offset, es[j].len),
                   ss[i].ctxs[c].wait.resp) in ss[i].log
    ensures forall n | 0 <= n < i && n != j && es[n].Submit? :: es[n].c != c
  {
    RunKeepsInv(ss, es, i);
    j := AskedWasSubmitted(ss, es, i, c);
    SubmittedStays(ss, es, i, j);
    k := LoggedWasAnswered(ss, es, i, Answer(c, ss[i].asked[c], ss[i].ctxs[c].wait.resp));
    var j0 := AskedWasSubmitted(ss, es, k, c);
    forall n | 0 <= n < i && n != j && es[n].Submit? ensures es[n].c != c {
      SubmittedOnce(ss, es, j, n);
    }
    if j0 != j { SubmittedOnce(ss, es, j, j0); }
  }

  lemma SubmittedOnce(ss: seq<State>, es: seq<Event>, i: nat, j: nat)
    requires Run(ss, es) && i < |es| && j < |es| && i != j && es[i].Submit? && es[j].Submit?
    ensures es[i].c != es[j].c
  {
    var lo, hi := if i < j then i else j, if i < j then j else i;
    SubmittedStays(ss, es, hi, lo);
    RunKeepsInv(ss, es, hi);
    assert Enabled(ss[hi], es[hi]);
  }

  // Steps leave alone what the ring refused, for it counts as returned from the start.
  lemma RefusedStays(s: State, e: Event, c: nat)
    requires CallerSide(s) && Enabled(s, e) && c in s.ctxs && c !in Apply(s, e).asked
    ensures c !in s.asked && Apply(s, e).ctxs[c].wait == s.ctxs[c].wait
  {}

  // A caller whose request the ring refused is told so, and the device never gets it.
  lemma {:induction false} RefusedIsTold(ss: seq<State>, es: seq<Event>, i: nat, c: nat) returns (j: nat)
    requires Run(ss, es) && i <= |es| && c in ss[i].ctxs && c !in ss[i].asked
    ensures j < i && es[j].AddFails? && es[j].c == c && ss[i].ctxs[c].wait == Returned(Response(es[j].err, 0))
    ensures c !in ss[i].ring && c !in ss[i].used
  {
    j := i - 1;
    if c in ss[j].ctxs {
      var s, e := ss[j], es[j];
      assert Enabled(s, e) && ss[i] == Apply(s, e);
      RunKeepsInv(ss, es, j);
      RefusedStays(s, e, c);
      j := RefusedIsTold(ss, es, j, c);
    }
    RefusedIsNotPlaced(ss, es, i, c);
  }

  lemma RefusedIsNotPlaced(ss: seq<State>, es: seq<Event>, i: nat, c: nat)
    requires Run(ss, es) && i <= |es| && c !in ss[i].asked
    ensures c !in ss[i].ring && c !in ss[i].used
  {
    RunKeepsInv(ss, es, i);
  }

  // After a wait was given up, the context stays allocated for good and the caller is never told more.
  lemma {:induction false} GivenUpIsLeaked(ss: seq<State>, es: seq<Event>, i: nat, j: nat, c: nat)
    requires Run(ss, es) && i <= j <= |es| && c in ss[i].ctxs && ss[i].ctxs[c].wait == TimedOut
    ensures c in ss[j].ctxs && ss[j].ctxs[c].wait == TimedOut && ss[j].ctxs[c].frees == 0
    decreases j
  {
    RunKeepsInv(ss, es, j);
    if i < j {
      GivenUpIsLeaked(ss, es, i, j - 1, c);
    }
  }
}
