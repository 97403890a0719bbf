// The host side of a growable pool: a table of one-step grants, answered over a queue whose replies
// can be lost. Each request meets one fate; the pool driver sees only the reply.
module PoolHost {
  import opened Errno

  // granted: step offsets the host holds a grant for. mapped: those the guest can reach.
  // late: SHAREs that timed out and still sit in the queue.
  datatype Host = Host(granted: set<nat>, mapped: set<nat>, late: set<nat>)

  datatype ShareFate =
    | Grant                 // shared, answered 0
    | GrantLost             // shared, reply lost
    | Refuse(err: int)      // not shared, answered err
    | RefuseLost            // not shared, reply lost
    | Queued                // not served before the guest gave up

  datatype UnshareFate =
    | Done                  // unshared, answered 0
    | DoneLost              // unshared, reply lost
    | Keep(err: int)        // still mapped, answered err
    | KeepLost              // still mapped, reply lost
    | Broke                 // grant kept, guest mapping gone, answered EUCLEAN
    | BrokeLost             // the same, reply lost

  datatype QueryFate = Answer(backed: bool) | NoAnswer(err: int)

  function ShareReply(f: ShareFate): int {
    match f
    case Grant => 0
    case Refuse(e) => e
    case _ => ETIMEDOUT
  }

  function AfterShare(h: Host, off: nat, f: ShareFate): Host {
    match f
    case Grant => h.(granted := h.granted + {off}, mapped := h.mapped + {off})
    case GrantLost => h.(granted := h.granted + {off}, mapped := h.mapped + {off})
    case Queued => h.(late := h.late + {off})
    case _ => h
  }

  // A range that is already granted is never granted again.
  predicate ShareCan(h: Host, off: nat, f: ShareFate) {
    match f
    case Grant => off !in h.granted
    case GrantLost => off !in h.granted
    case Refuse(e) => e != 0
    case _ => true
  }

  function UnshareReply(f: UnshareFate): int {
    match f
    case Done => 0
    case Keep(e) => e
    case Broke => EUCLEAN
    case _ => ETIMEDOUT
  }

  function AfterUnshare(h: Host, off: nat, f: UnshareFate): Host {
    match f
    case Done => h.(granted := h.granted - {off}, mapped := h.mapped - {off})
    case DoneLost => h.(granted := h.granted - {off}, mapped := h.mapped - {off})
    case Broke => h.(mapped := h.mapped - {off})
    case BrokeLost => h.(mapped := h.mapped - {off})
    case _ => h
  }

  predicate UnshareCan(f: UnshareFate) {
    f.Keep? ==> f.err != 0
  }

  // A SHARE that was left in the queue is served at last.
  function AfterLate(h: Host, off: nat, grant: bool): Host {
    var h' := h.(late := h.late - {off});
    if grant && off !in h.granted
    then h'.(granted := h.granted + {off}, mapped := h.mapped + {off})
    else h'
  }

  // What the driver relies on when it asks about a range after a doubtful SHARE: "backed" means mapped.
  predicate GrowAnswerFair(h: Host, off: nat, f: ShareFate, q: QueryFate) {
    (ShareReply(f) == ETIMEDOUT || ShareReply(f) == EEXIST) && q == Answer(true) ==> off in h.mapped
  }

  // What it relies on after a failed UNSHARE: when the mapping went away and the reply with it, the
  // query is answered, and not with "backed".
  predicate ShrinkAnswerFair(f: UnshareFate, q: QueryFate) {
    f.DoneLost? || f.BrokeLost? ==> q == Answer(false)
  }

  // Which request the next query is about.
  datatype Doubt = NoDoubt | OnShare(f: ShareFate) | OnUnshare(g: UnshareFate)

  // One growable pool as seen through the request queue. The bodies pick a fate at random; a generous
  // host loses no reply, grants every step, and answers truthfully.
  class HostPool {
    const floor: nat
    const unit: nat
    const window: nat
    const generous: bool
    var st: Host
    var doubt: Doubt

    ghost predicate Valid() reads this {
      generous ==> st.granted == st.mapped
    }

    constructor (floor: nat, unit: nat, window: nat, generous: bool, granted: set<nat>)
      ensures Valid() && this.floor == floor && this.unit == unit && this.window == window
      ensures this.generous == generous && st == Host(granted, granted, {})
    {
      this.floor, this.unit, this.window, this.generous := floor, unit, window, generous;
      st, doubt := Host(granted, granted, {}), NoDoubt;
    }

    // Every range named to the host is one whole step of the growable part.
    ghost predicate Nameable(off: nat, len: nat) {
      && len == unit > 0 && floor <= off && off + len <= window
      && exists k: nat :: off == floor + k * unit
    }

    method Share(off: nat, len: nat) returns (ret: int, ghost f: ShareFate)
      requires Valid() && Nameable(off, len)
      modifies this
      ensures Valid() && ShareCan(old(st), off, f)
      ensures ret == ShareReply(f) && st == AfterShare(old(st), off, f) && doubt == OnShare(f)
      ensures generous ==> f == if off in old(st).granted then Refuse(EEXIST) else Grant
    {
      var fate: ShareFate := *;
      if !ShareCan(st, off, fate) { fate := RefuseLost; }
      if generous { fate := if off in st.granted then Refuse(EEXIST) else Grant; }
      f := fate;
      st, doubt, ret := AfterShare(st, off, fate), OnShare(fate), ShareReply(fate);
    }

    method Unshare(off: nat, len: nat) returns (ret: int, ghost f: UnshareFate)
      requires Valid() && Nameable(off, len)
      modifies this
      ensures Valid() && UnshareCan(f)
      ensures ret == UnshareReply(f) && st == AfterUnshare(old(st), off, f) && doubt == OnUnshare(f)
    {
      var fate: UnshareFate := *;
      if !UnshareCan(fate) { fate := KeepLost; }
      if generous { fate := if fate.Keep? then fate else Done; }
      f := fate;
      st, doubt, ret := AfterUnshare(st, off, fate), OnUnshare(fate), UnshareReply(fate);
    }

    // Is this exact range backed? ret != 0 means no answer came.
    method QueryRange(off: nat, len: nat) returns (ret: int, backed: bool, ghost q: QueryFate)
      requires Valid() && Nameable(off, len)
      ensures if ret == 0 then q == Answer(backed) else q.NoAnswer?
      ensures doubt.OnShare? ==> GrowAnswerFair(st, off, doubt.f, q)
      ensures doubt.OnUnshare? ==> ShrinkAnswerFair(doubt.g, q)
      ensures generous && doubt.OnShare? ==> q == Answer(off in st.mapped)
    {
      ret, backed := *, *;
      if backed && off !in st.mapped { backed := false; }
      if doubt.OnUnshare? && (doubt.g.DoneLost? || doubt.g.BrokeLost?) { ret, backed := 0, false; }
      if generous && doubt.OnShare? { ret, backed := 0, off in st.mapped; }
      q := if ret == 0 then Answer(backed) else NoAnswer(ret);
    }
  }
}
