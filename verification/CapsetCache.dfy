// The capability-set cache: requesters look a (id, version) up, and on a miss look again under the
// lock before they add an entry and ask the host for it; the host's answer fills the entry, and every
// requester waiting for it then copies it out.
module CapsetCache {
  import opened Arith
  import opened Errno

  type Bytes = seq<bv8>

  datatype Capset = Capset(id: nat, maxVersion: nat, maxSize: nat)
  datatype Key = Key(id: nat, version: nat)
  datatype Entry = Entry(key: Key, size: nat, valid: bool, bytes: Bytes)

  // The first set that offers the version, as the ioctl searches; |caps| if none does.
  function FindCapset(caps: seq<Capset>, k: Key): (i: nat)
    ensures i <= |caps|
    ensures i < |caps| ==> caps[i].id == k.id && k.version <= caps[i].maxVersion
    ensures forall j | 0 <= j < i :: !(caps[j].id == k.id && k.version <= caps[j].maxVersion)
  {
    if caps == [] || (caps[0].id == k.id && k.version <= caps[0].maxVersion) then 0 else 1 + FindCapset(caps[1..], k)
  }

  function Find(cache: seq<Entry>, k: Key): (i: nat)
    ensures i <= |cache|
    ensures i < |cache| ==> cache[i].key == k
    ensures forall j | 0 <= j < i :: cache[j].key != k
  {
    if cache == [] || cache[0].key == k then 0 else 1 + Find(cache[1..], k)
  }

  // The response buffer starts as zeros and the host writes what it sends, as far as it fits.
  function Received(sent: Bytes, size: nat): (r: Bytes)
    ensures |r| == size && forall k | 0 <= k < size :: r[k] == ByteOf(sent, k)
  {
    if |sent| >= size then sent[..size] else sent + seq(size - |sent|, _ => 0)
  }

  // What byte k of the buffer is once the host has written what it sends.
  function ByteOf(sent: Bytes, k: nat): bv8 { if k < |sent| then sent[k] else 0 }

  // ----- the machine -----

  datatype Reader =
    | Missed(key: Key, want: nat, idx: nat)       // not in the cache, about to ask
    | Sending(key: Key, want: nat, at: nat)       // entry added, command still to be queued
    | Waiting(key: Key, want: nat, at: nat)
    | Copied(key: Key, want: nat, at: nat, out: Bytes)
    | Failed(err: int)

  datatype State = State(
    cache: seq<Entry>,
    readers: map<nat, Reader>,
    asked: seq<Key>,              // GET_CAPSET commands queued, in order
    unanswered: seq<Key>)

  datatype Event =
    | Lookup(r: nat, key: Key, want: nat)
    | Insert(r: nat, nomem: bool)
    | Send(r: nat)
    | Answer(i: nat, respType: nat, sent: Bytes)
    | Copy(r: nat)
    | TimeOut(r: nat)

  // What a requester finds under the lock.
  function Looked(cache: seq<Entry>, caps: seq<Capset>, key: Key, want: nat): Reader {
    var idx, at := FindCapset(caps, key), Find(cache, key);
    if |caps| == 0 then Failed(ENOSYS)
    else if want == 0 || idx == |caps| then Failed(EINVAL)
    else if at < |cache| then Waiting(key, Min(want, caps[idx].maxSize), at)
    else Missed(key, Min(want, caps[idx].maxSize), idx)
  }

  // A new entry, and the reader that is to ask for it.
  function Added(s: State, r: nat, key: Key, want: nat, size: nat): State {
    s.(cache := s.cache + [Entry(key, size, false, [])], readers := s.readers[r := Sending(key, want, |s.cache|)])
  }

  function Apply(s: State, e: Event, caps: seq<Capset>): State {
    match e
    case Lookup(r, key, want) => s.(readers := s.readers[r := Looked(s.cache, caps, key, want)])
    case Insert(r, nomem) =>
      if r !in s.readers || !s.readers[r].Missed? || s.readers[r].idx >= |caps| then s
      else
        var Missed(key, want, idx) := s.readers[r];
        var at := Find(s.cache, Key(caps[idx].id, key.version));
        if nomem then s.(readers := s.readers[r := Failed(ENOMEM)])
        else if at < |s.cache| then s.(readers := s.readers[r := Waiting(key, want, at)])
        else Added(s, r, Key(caps[idx].id, key.version), want, caps[idx].maxSize)
    case Send(r) =>
      if r !in s.readers || !s.readers[r].Sending? then s
      else
        var Sending(key, want, at) := s.readers[r];
        s.(readers := s.readers[r := Waiting(key, want, at)], asked := s.asked + [key],
           unanswered := s.unanswered + [key])
    // Whatever the response's type.
    case Answer(i, _, sent) =>
      if i >= |s.unanswered| then s
      else s.(cache := Filled(s.cache, s.unanswered[i], sent),
              unanswered := s.unanswered[..i] + s.unanswered[i + 1..])
    case Copy(r) =>
      if r !in s.readers || !s.readers[r].Waiting? || s.readers[r].at >= |s.cache| then s
      else
        var Waiting(key, want, at) := s.readers[r];
        if !s.cache[at].valid || want > |s.cache[at].bytes| then s
        else s.(readers := s.readers[r := Copied(key, want, at, s.cache[at].bytes[..want])])
    case TimeOut(r) =>
      if r !in s.readers || !s.readers[r].Waiting? then s else s.(readers := s.readers[r := Failed(EBUSY)])
  }

  // The callback fills the first entry with the command's key, whatever the response says.
  function Filled(cache: seq<Entry>, key: Key, sent: Bytes): seq<Entry> {
    var at := Find(cache, key);
    if at == |cache| then cache
    else cache[at := cache[at].(valid := true, bytes := Received(sent, cache[at].size))]
  }

  ghost predicate Enabled(s: State, e: Event) {
    match e
    case Lookup(r, _, _) => r !in s.readers
    case Insert(r, _) => r in s.readers && s.readers[r].Missed?
    case Send(r) => r in s.readers && s.readers[r].Sending?
    case Answer(i, _, _) => i < |s.unanswered|
    case Copy(r) =>
      r in s.readers && s.readers[r].Waiting? && s.readers[r].at < |s.cache| && s.cache[s.readers[r].at].valid
    case TimeOut(r) =>
      r in s.readers && s.readers[r].Waiting? && s.readers[r].at < |s.cache| && !s.cache[s.readers[r].at].valid
  }

  // ----- what every step keeps -----

  // One entry to a pair, each as large as the set its pair selects; a filled entry is full.
  ghost predicate CacheOk(cache: seq<Entry>, caps: seq<Capset>) {
    && (forall i, j | 0 <= i < j < |cache| :: cache[i].key != cache[j].key)
    && (forall i | 0 <= i < |cache| ::
          FindCapset(caps, cache[i].key) < |caps| && cache[i].size == caps[FindCapset(caps, cache[i].key)].maxSize
          && (cache[i].valid ==> |cache[i].bytes| == cache[i].size))
  }

  ghost predicate ReaderOk(s: State, caps: seq<Capset>, r: nat)
    requires r in s.readers
  {
    match s.readers[r]
    case Missed(key, want, idx) =>
      idx == FindCapset(caps, key) < |caps| && want <= caps[idx].maxSize
    case Sending(key, want, at) =>
      at < |s.cache| && s.cache[at].key == key && want <= s.cache[at].size && key !in s.asked
    case Waiting(key, want, at) =>
      at < |s.cache| && s.cache[at].key == key && want <= s.cache[at].size
    case Copied(key, want, at, out) =>
      at < |s.cache| && s.cache[at].key == key && want <= s.cache[at].size && s.cache[at].valid
      && want <= |s.cache[at].bytes| && out == s.cache[at].bytes[..want]
    case Failed(_) => true
  }

  ghost predicate OneSender(s: State) {
    forall r, q | r in s.readers && q in s.readers && r != q && s.readers[r].Sending? && s.readers[q].Sending? ::
      s.readers[r].key != s.readers[q].key
  }

  // A pair is asked for once at most, its entry is there by then, and stays invalid until answered.
  ghost predicate AskedOk(s: State) {
    && (forall i, j | 0 <= i < j < |s.asked| :: s.asked[i] != s.asked[j])
    && (forall i, j | 0 <= i < j < |s.unanswered| :: s.unanswered[i] != s.unanswered[j])
    && (forall k | k in s.unanswered :: k in s.asked)
    && (forall k | k in s.asked :: Find(s.cache, k) < |s.cache|)
    && (forall i | 0 <= i < |s.cache| ::
          s.cache[i].valid <==> s.cache[i].key in s.asked && s.cache[i].key !in s.unanswered)
  }

  ghost predicate Inv(s: State, caps: seq<Capset>) {
    CacheOk(s.cache, caps) && (forall r | r in s.readers :: ReaderOk(s, caps, r)) && OneSender(s) && AskedOk(s)
  }

  lemma FindAt(cache: seq<Entry>, i: nat)
    requires i < |cache| && forall j | 0 <= j < i :: cache[j].key != cache[i].key
    ensures Find(cache, cache[i].key) == i
  {}

  lemma {:induction false} FindAppend(cache: seq<Entry>, e: Entry, k: Key)
    ensures Find(cache + [e], k)
            == if Find(cache, k) < |cache| then Find(cache, k) else if e.key == k then |cache| else |cache| + 1
  {
    if cache != [] {
      FindAppend(cache[1..], e, k);
      assert (cache + [e])[1..] == cache[1..] + [e];
    }
  }

  // Filling an entry moves none.
  lemma {:induction false} FindFilled(cache: seq<Entry>, at: nat, e: Entry, k: Key)
    requires at < |cache| && e.key == cache[at].key
    ensures Find(cache[at := e], k) == Find(cache, k)
  {
    if at > 0 {
      FindFilled(cache[1..], at - 1, e, k);
      assert cache[at := e][1..] == cache[1..][at - 1 := e];
    } else {
      assert cache[at := e][1..] == cache[1..];
    }
  }

  // Only one reader moves, and not to send.
  lemma MoveReader(s: State, r: nat, x: Reader, caps: seq<Capset>)
    requires Inv(s, caps) && !x.Sending? && ReaderOk(s.(readers := map[r := x]), caps, r)
    ensures Inv(s.(readers := s.readers[r := x]), caps)
  {
    var t := s.(readers := s.readers[r := x]);
    forall q | q in t.readers ensures ReaderOk(t, caps, q) {
      if q != r { assert ReaderOk(s, caps, q); }
    }
    assert OneSender(t);
    assert AskedOk(t);
  }

  lemma LookupKeeps(s: State, r: nat, key: Key, want: nat, caps: seq<Capset>)
    requires Inv(s, caps) && r !in s.readers
    ensures Inv(Apply(s, Lookup(r, key, want), caps), caps)
  {
    var x := Looked(s.cache, caps, key, want);
    LookedOk(s.(readers := map[r := x]), r, key, want, caps);
    MoveReader(s, r, x, caps);
  }

  lemma LookedOk(s: State, r: nat, key: Key, want: nat, caps: seq<Capset>)
    requires CacheOk(s.cache, caps) && r in s.readers && s.readers[r] == Looked(s.cache, caps, key, want)
    ensures ReaderOk(s, caps, r)
  {}

  lemma AddKeepsReaders(s: State, r: nat, key: Key, want: nat, size: nat, caps: seq<Capset>)
    requires Inv(s, caps) && r in s.readers && key !in s.asked && Find(s.cache, key) == |s.cache| && want <= size
    ensures var t := Added(s, r, key, want, size); (forall q | q in t.readers :: ReaderOk(t, caps, q)) && OneSender(t)
  {
    var t := Added(s, r, key, want, size);
    forall q | q in t.readers
      ensures ReaderOk(t, caps, q) && (q != r && t.readers[q].Sending? ==> t.readers[q].key != key)
    {
      if q != r { assert ReaderOk(s, caps, q); }
    }
  }

  lemma AddEntry(s: State, r: nat, caps: seq<Capset>)
    requires Inv(s, caps) && r in s.readers && s.readers[r].Missed? && Find(s.cache, s.readers[r].key) == |s.cache|
    ensures var Missed(key, want, idx) := s.readers[r];
            idx < |caps| && Inv(Added(s, r, key, want, caps[idx].maxSize), caps)
  {
    var Missed(key, want, idx) := s.readers[r];
    assert ReaderOk(s, caps, r) && key !in s.asked;
    AddKeepsReaders(s, r, key, want, caps[idx].maxSize, caps);
    KeysStayDistinct(s.cache, Entry(key, caps[idx].maxSize, false, []));
    AddKeepsAsked(s, r, key, want, caps[idx].maxSize);
  }

  lemma KeysStayDistinct(cache: seq<Entry>, e: Entry)
    requires (forall i, j | 0 <= i < j < |cache| :: cache[i].key != cache[j].key) && Find(cache, e.key) == |cache|
    ensures var all := cache + [e]; forall i, j | 0 <= i < j < |all| :: all[i].key != all[j].key
  {}

  lemma AddKeepsAsked(s: State, r: nat, key: Key, want: nat, size: nat)
    requires AskedOk(s) && key !in s.asked
    ensures AskedOk(Added(s, r, key, want, size))
  {
    AskedAfterAdd(s.asked, s.cache, Entry(key, size, false, []));
  }

  lemma AskedAfterAdd(asked: seq<Key>, cache: seq<Entry>, e: Entry)
    requires forall k | k in asked :: Find(cache, k) < |cache|
    ensures forall k | k in asked :: Find(cache + [e], k) < |cache + [e]|
  {
    forall k | k in asked ensures Find(cache + [e], k) < |cache + [e]| { FindAppend(cache, e, k); }
  }

  lemma InsertKeeps(s: State, r: nat, nomem: bool, caps: seq<Capset>)
    requires Inv(s, caps) && r in s.readers && s.readers[r].Missed?
    ensures Inv(Apply(s, Insert(r, nomem), caps), caps)
  {
    var t := Apply(s, Insert(r, nomem), caps);
    assert ReaderOk(s, caps, r) && Key(caps[s.readers[r].idx].id, s.readers[r].key.version) == s.readers[r].key;
    if t.cache == s.cache {
      assert t == s.(readers := s.readers[r := t.readers[r]]);
      MoveReader(s, r, t.readers[r], caps);
    } else {
      AddEntry(s, r, caps);
    }
  }

  lemma SendKeeps(s: State, r: nat, caps: seq<Capset>)
    requires Inv(s, caps) && r in s.readers && s.readers[r].Sending?
    ensures Inv(Apply(s, Send(r), caps), caps)
  {
    var t := Apply(s, Send(r), caps);
    var Sending(key, want, at) := s.readers[r];
    assert ReaderOk(s, caps, r);
    FindAt(s.cache, at);
    forall q | q in t.readers ensures ReaderOk(t, caps, q) {
      assert ReaderOk(s, caps, q);
    }
  }

  lemma FilledFinds(cache: seq<Entry>, key: Key, sent: Bytes, k: Key)
    ensures Find(Filled(cache, key, sent), k) == Find(cache, k) && |Filled(cache, key, sent)| == |cache|
  {
    var at := Find(cache, key);
    if at < |cache| { FindFilled(cache, at, Filled(cache, key, sent)[at], k); }
  }

  lemma AnswerKeepsCache(s: State, i: nat, sent: Bytes, caps: seq<Capset>)
    requires CacheOk(s.cache, caps) && i < |s.unanswered|
    ensures CacheOk(Filled(s.cache, s.unanswered[i], sent), caps)
  {}

  lemma AnswerKeepsAsked(s: State, i: nat, respType: nat, sent: Bytes, caps: seq<Capset>)
    requires AskedOk(s) && CacheOk(s.cache, caps) && i < |s.unanswered|
    ensures AskedOk(Apply(s, Answer(i, respType, sent), caps))
  {
    var t, key := Apply(s, Answer(i, respType, sent), caps), s.unanswered[i];
    forall k ensures Find(t.cache, k) == Find(s.cache, k) { FilledFinds(s.cache, key, sent, k); }
    OthersUnanswered(s.unanswered, i);
    forall j | 0 <= j < |t.cache|
      ensures t.cache[j].valid <==> t.cache[j].key in t.asked && t.cache[j].key !in t.unanswered
    {
      FilledValid(s.cache, key, sent, j);
    }
  }

  lemma OthersUnanswered(keys: seq<Key>, i: nat)
    requires i < |keys| && forall j, k | 0 <= j < k < |keys| :: keys[j] != keys[k]
    ensures var left := keys[..i] + keys[i + 1..];
            && (forall j, k | 0 <= j < k < |left| :: left[j] != left[k])
            && (forall k :: k in left <==> k in keys && k != keys[i])
  {}

  lemma FilledValid(cache: seq<Entry>, key: Key, sent: Bytes, j: nat)
    requires j < |cache| && forall a, b | 0 <= a < b < |cache| :: cache[a].key != cache[b].key
    ensures var x := Filled(cache, key, sent)[j]; x.key == cache[j].key && (x.valid <==> cache[j].valid || x.key == key)
  {
    if cache[j].key == key { FindAt(cache, j); }
  }

  lemma AnswerKeeps(s: State, i: nat, respType: nat, sent: Bytes, caps: seq<Capset>)
    requires Inv(s, caps) && i < |s.unanswered|
    ensures Inv(Apply(s, Answer(i, respType, sent), caps), caps)
  {
    AnswerKeepsCache(s, i, sent, caps);
    AnswerKeepsAsked(s, i, respType, sent, caps);
    forall q | q in s.readers ensures ReaderOk(Apply(s, Answer(i, respType, sent), caps), caps, q) {
      AnswerKeepsReader(s, i, respType, sent, caps, q);
    }
  }

  lemma AnswerKeepsReader(s: State, i: nat, respType: nat, sent: Bytes, caps: seq<Capset>, q: nat)
    requires AskedOk(s) && i < |s.unanswered| && q in s.readers && ReaderOk(s, caps, q)
    ensures ReaderOk(Apply(s, Answer(i, respType, sent), caps), caps, q)
  {
    assert !s.cache[Find(s.cache, s.unanswered[i])].valid;
  }

  // A copy out of a filled entry never runs past its end.
  lemma CopyKeeps(s: State, r: nat, caps: seq<Capset>)
    requires Inv(s, caps) && Enabled(s, Copy(r))
    ensures s.readers[r].want <= |s.cache[s.readers[r].at].bytes|
    ensures Apply(s, Copy(r), caps).readers[r].Copied? && Inv(Apply(s, Copy(r), caps), caps)
  {
    var t := Apply(s, Copy(r), caps);
    assert ReaderOk(s, caps, r);
    assert t == s.(readers := s.readers[r := t.readers[r]]);
    MoveReader(s, r, t.readers[r], caps);
  }

  lemma StepKeepsInv(s: State, e: Event, caps: seq<Capset>)
    requires Inv(s, caps) && Enabled(s, e)
    ensures Inv(Apply(s, e, caps), caps)
  {
    match e
    case Lookup(r, key, want) => LookupKeeps(s, r, key, want, caps);
    case Insert(r, nomem) => InsertKeeps(s, r, nomem, caps);
    case Send(r) => SendKeeps(s, r, caps);
    case Answer(i, respType, sent) => AnswerKeeps(s, i, respType, sent, caps);
    case Copy(r) => CopyKeeps(s, r, caps);
    case TimeOut(r) => MoveReader(s, r, Failed(EBUSY), caps);
  }

  // ----- runs -----

  ghost predicate Run(ss: seq<State>, es: seq<Event>, caps: seq<Capset>) {
    && |ss| == |es| + 1 && ss[0] == State([], map[], [], [])
    && forall i | 0 <= i < |es| :: Enabled(ss[i], es[i]) && ss[i + 1] == Apply(ss[i], es[i], caps)
  }

  lemma {:induction false} InvOverRuns(ss: seq<State>, es: seq<Event>, caps: seq<Capset>, i: nat)
    requires Run(ss, es, caps) && i <= |es|
    ensures Inv(ss[i], caps)
  {
    if i > 0 {
      InvOverRuns(ss, es, caps, i - 1);
      StepKeepsInv(ss[i - 1], es[i - 1], caps);
    }
  }

  // However requesters interleave, no pair is asked for twice, and no pair has two entries.
  lemma OneRequestPerPair(ss: seq<State>, es: seq<Event>, caps: seq<Capset>, i: nat)
    requires Run(ss, es, caps) && i <= |es|
    ensures forall a, b | 0 <= a < b < |ss[i].asked| :: ss[i].asked[a] != ss[i].asked[b]
    ensures forall a, b | 0 <= a < b < |ss[i].cache| :: ss[i].cache[a].key != ss[i].cache[b].key
  {
    InvOverRuns(ss, es, caps, i);
  }

  lemma StepAt(ss: seq<State>, es: seq<Event>, caps: seq<Capset>, i: nat, at: nat)
    requires Run(ss, es, caps) && i < |es|
    ensures at < |ss[i].cache| && ss[i].cache[at].valid ==>
              at < |ss[i + 1].cache| && ss[i + 1].cache[at] == ss[i].cache[at]
    ensures at < |ss[i + 1].cache| && ss[i + 1].cache[at].valid && (at >= |ss[i].cache| || !ss[i].cache[at].valid) ==>
              var x := ss[i + 1].cache[at]; Brought(ss, es, i, x.key, x.size, x.bytes)
  {
    InvOverRuns(ss, es, caps, i);
    var s, e := ss[i], es[i];
    assert Enabled(s, e) && ss[i + 1] == Apply(s, e, caps);
    if at < |s.cache| && s.cache[at].valid { ValidStays(s, e, caps, at); }
  }

  ghost predicate HoldsAt(s: State, at: nat, x: Entry) { at < |s.cache| && s.cache[at] == x }

  lemma HoldsOn(ss: seq<State>, es: seq<Event>, caps: seq<Capset>, i: nat, at: nat, x: Entry)
    requires Run(ss, es, caps) && i < |es| && HoldsAt(ss[i], at, x) && x.valid
    ensures HoldsAt(ss[i + 1], at, x)
  {
    StepAt(ss, es, caps, i, at);
  }

  // A filled entry never changes again.
  lemma {:induction false} ValidIsFinal(ss: seq<State>, es: seq<Event>, caps: seq<Capset>, i: nat, j: nat,
                                        at: nat, x: Entry)
    requires Run(ss, es, caps) && i <= j <= |es| && HoldsAt(ss[i], at, x) && x.valid
    ensures HoldsAt(ss[j], at, x)
  {
    if i < j {
      ValidIsFinal(ss, es, caps, i, j - 1, at, x);
      HoldsOn(ss, es, caps, j - 1, at, x);
    }
  }

  lemma ValidStays(s: State, e: Event, caps: seq<Capset>, at: nat)
    requires Inv(s, caps) && Enabled(s, e) && at < |s.cache| && s.cache[at].valid
    ensures at < |Apply(s, e, caps).cache| && Apply(s, e, caps).cache[at] == s.cache[at]
  {
    if e.Answer? { AnswerLeavesValid(s, e.i, e.sent, caps, at); } else { OthersLeaveEntry(s, e, caps, at); }
  }

  lemma AnswerLeavesValid(s: State, i: nat, sent: Bytes, caps: seq<Capset>, at: nat)
    requires CacheOk(s.cache, caps) && AskedOk(s) && i < |s.unanswered| && at < |s.cache| && s.cache[at].valid
    ensures at < |Filled(s.cache, s.unanswered[i], sent)|
    ensures Filled(s.cache, s.unanswered[i], sent)[at] == s.cache[at]
  {
    FindAt(s.cache, at);
  }

  lemma OthersLeaveEntry(s: State, e: Event, caps: seq<Capset>, at: nat)
    requires !e.Answer? && at < |s.cache|
    ensures at < |Apply(s, e, caps).cache| && Apply(s, e, caps).cache[at] == s.cache[at]
  {}

  // Step j is a response to the pair's request.
  ghost predicate Answered(ss: seq<State>, es: seq<Event>, j: nat, key: Key)
    requires |ss| == |es| + 1
  {
    j < |es| && es[j].Answer? && es[j].i < |ss[j].unanswered| && ss[j].unanswered[es[j].i] == key
  }

  // It is, and these are the bytes it brought.
  ghost predicate Brought(ss: seq<State>, es: seq<Event>, j: nat, key: Key, size: nat, bytes: Bytes)
    requires |ss| == |es| + 1
  {
    && Answered(ss, es, j, key)
    && |bytes| == size && forall k | 0 <= k < size :: bytes[k] == ByteOf(es[j].sent, k)
  }

  lemma {:induction false} FilledByResponse(ss: seq<State>, es: seq<Event>, caps: seq<Capset>, i: nat, at: nat)
    returns (j: nat)
    requires Run(ss, es, caps) && i <= |es| && at < |ss[i].cache| && ss[i].cache[at].valid
    ensures j < i && Brought(ss, es, j, ss[i].cache[at].key, ss[i].cache[at].size, ss[i].cache[at].bytes)
  {
    StepAt(ss, es, caps, i - 1, at);
    if at < |ss[i - 1].cache| && ss[i - 1].cache[at].valid {
      j := FilledByResponse(ss, es, caps, i - 1, at);
    } else {
      j := i - 1;
    }
  }

  // Each reader looked once, and wants what it asked for, as far as its set goes.
  ghost predicate LookedAt(es: seq<Event>, caps: seq<Capset>, j: nat, r: nat, x: Reader) {
    && j < |es| && es[j].Lookup? && es[j].r == r
    && (!x.Failed? ==>
          && x.key == es[j].key && FindCapset(caps, x.key) < |caps|
          && x.want == Min(es[j].want, caps[FindCapset(caps, x.key)].maxSize))
  }

  lemma WantsTheSame(s: State, e: Event, caps: seq<Capset>, r: nat)
    requires Inv(s, caps) && Enabled(s, e) && r in s.readers
    ensures var x, y := s.readers[r], Apply(s, e, caps).readers[r];
            r in Apply(s, e, caps).readers && (!y.Failed? ==> !x.Failed? && y.key == x.key && y.want == x.want)
  {
    if e.Insert? { assert ReaderOk(s, caps, e.r); }
  }

  lemma ReaderAt(ss: seq<State>, es: seq<Event>, caps: seq<Capset>, i: nat, r: nat)
    requires Run(ss, es, caps) && i < |es| && r in ss[i + 1].readers
    ensures if r in ss[i].readers
            then forall j: nat | LookedAt(es, caps, j, r, ss[i].readers[r]) ::
                   LookedAt(es, caps, j, r, ss[i + 1].readers[r])
            else LookedAt(es, caps, i, r, ss[i + 1].readers[r])
  {
    InvOverRuns(ss, es, caps, i);
    var s, e := ss[i], es[i];
    assert Enabled(s, e) && ss[i + 1] == Apply(s, e, caps);
    if r in s.readers { WantsTheSame(s, e, caps, r); }
  }

  lemma {:induction false} WantIsAsked(ss: seq<State>, es: seq<Event>, caps: seq<Capset>, i: nat, r: nat)
    returns (j: nat)
    requires Run(ss, es, caps) && i <= |es| && r in ss[i].readers
    ensures j < i && LookedAt(es, caps, j, r, ss[i].readers[r])
  {
    ReaderAt(ss, es, caps, i - 1, r);
    if r in ss[i - 1].readers { j := WantIsAsked(ss, es, caps, i - 1, r); } else { j := i - 1; }
  }

  // What a reader copied are, byte by byte, the first bytes of the response to its own pair's request:
  // as many as it asked for, or all there are if it asked for more.
  lemma ReaderGetsTheResponse(ss: seq<State>, es: seq<Event>, caps: seq<Capset>, i: nat, r: nat)
    returns (j: nat, l: nat)
    requires Run(ss, es, caps) && i <= |es| && r in ss[i].readers && ss[i].readers[r].Copied?
    ensures var Copied(key, _, _, out) := ss[i].readers[r];
            && l < i && es[l].Lookup? && es[l].r == r && es[l].key == key
            && j < i && Answered(ss, es, j, key) && FindCapset(caps, key) < |caps|
            && |out| == Min(es[l].want, caps[FindCapset(caps, key)].maxSize)
            && forall k | 0 <= k < |out| :: out[k] == ByteOf(es[j].sent, k)
  {
    InvOverRuns(ss, es, caps, i);
    assert ReaderOk(ss[i], caps, r);
    j := FilledByResponse(ss, es, caps, i, ss[i].readers[r].at);
    l := WantIsAsked(ss, es, caps, i, r);
  }

  // ----- what the response was -----

  // VIRTIO 1.2 section 5.7.6.7.
  const RESP_OK_CAPSET := 0x1103
  const RESP_ERR_UNSPEC := 0x1200

  lemma SettledStays(s: State, e: Event, caps: seq<Capset>, key: Key)
    requires Inv(s, caps) && Enabled(s, e) && Settled(s, key)
    ensures Settled(Apply(s, e, caps), key)
  {
    if e.Send? { assert ReaderOk(s, caps, e.r); }
  }

  ghost predicate Settled(s: State, key: Key) { key in s.asked && key !in s.unanswered }

  lemma SettlesAt(ss: seq<State>, es: seq<Event>, caps: seq<Capset>, i: nat, key: Key)
    requires Run(ss, es, caps) && i < |es| && (Answered(ss, es, i, key) || Settled(ss[i], key))
    ensures Settled(ss[i + 1], key)
  {
    InvOverRuns(ss, es, caps, i);
    var s, e := ss[i], es[i];
    assert Enabled(s, e) && ss[i + 1] == Apply(s, e, caps);
    if Settled(s, key) { SettledStays(s, e, caps, key); } else { AnswerSettles(s, e, caps); }
  }

  lemma AnswerSettles(s: State, e: Event, caps: seq<Capset>)
    requires AskedOk(s) && e.Answer? && e.i < |s.unanswered|
    ensures Settled(Apply(s, e, caps), s.unanswered[e.i])
  {}

  lemma {:induction false} AnsweredSettles(ss: seq<State>, es: seq<Event>, caps: seq<Capset>, j: nat, k: nat, key: Key)
    requires Run(ss, es, caps) && Answered(ss, es, j, key) && j < k <= |es|
    ensures Settled(ss[k], key)
  {
    if k - 1 > j { AnsweredSettles(ss, es, caps, j, k - 1, key); }
    SettlesAt(ss, es, caps, k - 1, key);
  }

  // A pair is answered once at most.
  lemma OneAnswerPerPair(ss: seq<State>, es: seq<Event>, caps: seq<Capset>, j: nat, k: nat, key: Key)
    requires Run(ss, es, caps) && Answered(ss, es, j, key) && Answered(ss, es, k, key)
    ensures j == k
  {
    if j < k { AnsweredSettles(ss, es, caps, j, k, key); }
    if k < j { AnsweredSettles(ss, es, caps, k, j, key); }
  }

  ghost predicate IsOk(es: seq<Event>, j: nat) {
    j < |es| && es[j].Answer? && es[j].respType == RESP_OK_CAPSET
  }

  // What a valid entry holds are the bytes of an OK response if and only if the one answer its pair ever
  // got was OK.
  lemma ValidHoldsOkIff(ss: seq<State>, es: seq<Event>, caps: seq<Capset>, i: nat, at: nat) returns (j: nat)
    requires Run(ss, es, caps) && i <= |es| && at < |ss[i].cache| && ss[i].cache[at].valid
    ensures var x := ss[i].cache[at];
            && j < i && Answered(ss, es, j, x.key) && (forall k: nat | Answered(ss, es, k, x.key) :: k == j)
            && ((exists k: nat :: Brought(ss, es, k, x.key, x.size, x.bytes) && IsOk(es, k)) <==> IsOk(es, j))
  {
    j := FilledByResponse(ss, es, caps, i, at);
    forall k: nat | Answered(ss, es, k, ss[i].cache[at].key) ensures k == j {
      OneAnswerPerPair(ss, es, caps, j, k, ss[i].cache[at].key);
    }
  }

  // One reader, one set, and a host that refuses.
  const PAIR: Key := Key(1, 1)
  const SETS: seq<Capset> := [Capset(1, 1, 1)]

  function RefusedState(k: nat): State {
    var invalid, valid := Entry(PAIR, 1, false, []), Entry(PAIR, 1, true, [0]);
    if k == 0 then State([], map[], [], [])
    else if k == 1 then State([], map[0 := Missed(PAIR, 1, 0)], [], [])
    else if k == 2 then State([invalid], map[0 := Sending(PAIR, 1, 0)], [], [])
    else if k == 3 then State([invalid], map[0 := Waiting(PAIR, 1, 0)], [PAIR], [PAIR])
    else if k == 4 then State([valid], map[0 := Waiting(PAIR, 1, 0)], [PAIR], [])
    else State([valid], map[0 := Copied(PAIR, 1, 0, [0])], [PAIR], [])
  }

  function RefusedEvent(k: nat): Event {
    if k == 0 then Lookup(0, PAIR, 1) else if k == 1 then Insert(0, false) else if k == 2 then Send(0)
    else if k == 3 then Answer(0, RESP_ERR_UNSPEC, []) else Copy(0)
  }

  lemma RefusedStep(k: nat)
    requires k < 5
    ensures Enabled(RefusedState(k), RefusedEvent(k))
    ensures Apply(RefusedState(k), RefusedEvent(k), SETS) == RefusedState(k + 1)
  {
    assert FindCapset(SETS, PAIR) == 0;
    assert [0 as bv8][..1] == [0 as bv8];
    assert Received([], 1) == [0 as bv8];
  }

  // It need not be: a reader of a refused set gets a buffer of zeros and no error.
  lemma ErrorIsServedAsData()
    ensures exists ss: seq<State>, es: seq<Event> ::
              && Run(ss, es, SETS) && 0 in ss[|es|].readers && ss[|es|].readers[0] == Copied(PAIR, 1, 0, [0])
              && forall j: nat :: !IsOk(es, j)
  {
    var ss, es := seq(6, k requires 0 <= k => RefusedState(k)), seq(5, k requires 0 <= k => RefusedEvent(k));
    forall i | 0 <= i < 5 ensures Enabled(ss[i], es[i]) && ss[i + 1] == Apply(ss[i], es[i], SETS) { RefusedStep(i); }
    assert Run(ss, es, SETS);
    assert ss[|es|].readers[0] == Copied(PAIR, 1, 0, [0]);
  }

  // ----- the driver -----

  class Driver {
    const caps: seq<Capset>
    var cache: seq<Entry>
    var commands: seq<Key>            // GET_CAPSET commands handed to the control queue

    constructor (caps: seq<Capset>)
      ensures this.caps == caps && cache == [] && commands == []
    {
      this.caps, cache, commands := caps, [], [];
    }

    method SearchCache(k: Key) returns (at: nat)
      ensures at == Find(cache, k)
    {
      at := 0;
      while at < |cache| && cache[at].key != k
        invariant at <= |cache| && forall j | 0 <= j < at :: cache[j].key != k
      {
        at := at + 1;
      }
    }

    // The ioctl under the lock: the first set that offers the version, then the pair's entry.
    method GetCaps(key: Key, want: nat) returns (x: Reader)
      ensures x == Looked(cache, caps, key, want)
      ensures |caps| == 0 ==> x == Failed(ENOSYS)
      ensures |caps| > 0 ==> (x.Failed? <==> want == 0 || !Offered(caps, key)) && (x.Failed? ==> x.err == EINVAL)
      ensures x.Missed? || x.Waiting? ==>
                && x.key == key && (x.Waiting? <==> exists e | e in cache :: e.key == key)
                && exists idx | 0 <= idx < |caps| ::
                     && caps[idx].id == key.id && key.version <= caps[idx].maxVersion
                     && (forall j | 0 <= j < idx :: !(caps[j].id == key.id && key.version <= caps[j].maxVersion))
                     && x.want == (if want < caps[idx].maxSize then want else caps[idx].maxSize)
                     && (x.Missed? ==> x.idx == idx)
      ensures x.Waiting? ==> x.at < |cache| && cache[x.at].key == key
      ensures !x.Sending? && !x.Copied?
    {
      if |caps| == 0 { return Failed(ENOSYS); }
      if want == 0 { return Failed(EINVAL); }
      var foundValid := FindValid(key);
      if foundValid == -1 { return Failed(EINVAL); }
      var size := Min(want, caps[foundValid].maxSize);
      var at := SearchCache(key);
      x := if at < |cache| then Waiting(key, size, at) else Missed(key, size, foundValid);
    }

    method FindValid(key: Key) returns (foundValid: int)
      ensures foundValid == -1 <==> !Offered(caps, key)
      ensures foundValid != -1 ==> foundValid == FindCapset(caps, key) < |caps|
      ensures foundValid == -1 ==> FindCapset(caps, key) == |caps|
    {
      foundValid := -1;
      var i := 0;
      while i < |caps|
        invariant i <= |caps| && foundValid == -1
        invariant forall j | 0 <= j < i :: !(caps[j].id == key.id && key.version <= caps[j].maxVersion)
      {
        if caps[i].id == key.id {
          if caps[i].maxVersion >= key.version {
            foundValid := i;
            assert caps[i] in caps;
            break;
          }
        }
        i := i + 1;
      }
    }

    // The part of a miss that runs under the lock: whoever gets here second finds the first one's entry.
    method AddOrFind(m: Reader, nomem: bool) returns (x: Reader)
      requires m.Missed? && m.idx < |caps|
      modifies this`cache
      ensures forall s: State, r ::
                s.cache == old(cache) && r in s.readers && s.readers[r] == m ==>
                  var t := Apply(s, Insert(r, nomem), caps);
                  t.cache == cache && t.readers == s.readers[r := x]
      ensures nomem ==> x == Failed(ENOMEM) && cache == old(cache)
      ensures !nomem ==>
                var k := Key(caps[m.idx].id, m.key.version);
                if exists e | e in old(cache) :: e.key == k
                then x.Waiting? && x.key == m.key && x.want == m.want && cache == old(cache)
                     && x.at < |cache| && cache[x.at].key == k
                else x == Sending(k, m.want, |old(cache)|)
                     && cache == old(cache) + [Entry(k, caps[m.idx].maxSize, false, [])]
    {
      if nomem { return Failed(ENOMEM); }
      var k := Key(caps[m.idx].id, m.key.version);
      var at := SearchCache(k);
      if at < |cache| {
        assert cache[at] in cache;
        return Waiting(m.key, m.want, at);
      }
      cache := cache + [Entry(k, caps[m.idx].maxSize, false, [])];
      x := Sending(k, m.want, at);
    }

    method Ask(x: Reader) returns (y: Reader)
      requires x.Sending?
      modifies this`commands
      ensures commands == old(commands) + [x.key] && y == Waiting(x.key, x.want, x.at)
    {
      commands := commands + [x.key];
      y := Waiting(x.key, x.want, x.at);
    }

    // The response's type is not looked at.
    method CapsetCb(key: Key, respType: nat, sent: Bytes)
      modifies this`cache
      ensures cache == Filled(old(cache), key, sent)
      ensures |cache| == |old(cache)|
      ensures forall i | 0 <= i < |cache| ::
                if old(cache)[i].key == key && forall j | 0 <= j < i :: old(cache)[j].key != key
                then && cache[i].valid && cache[i].key == key && cache[i].size == old(cache)[i].size
                     && |cache[i].bytes| == cache[i].size
                     && forall k | 0 <= k < cache[i].size :: cache[i].bytes[k] == ByteOf(sent, k)
                else cache[i] == old(cache)[i]
    {
      var at := SearchCache(key);
      if at < |cache| {
        cache := cache[at := cache[at].(valid := true, bytes := Received(sent, cache[at].size))];
      }
    }

    // The end of the wait: copy out if the entry has become valid, give up if not.
    method CopyOut(x: Reader) returns (y: Reader)
      requires x.Waiting? && x.at < |cache| && (cache[x.at].valid ==> x.want <= |cache[x.at].bytes|)
      ensures if cache[x.at].valid
              then y.Copied? && y.key == x.key && |y.out| == x.want
                   && forall k | 0 <= k < x.want :: y.out[k] == cache[x.at].bytes[k]
              else y == Failed(EBUSY)
    {
      if !cache[x.at].valid { return Failed(EBUSY); }
      y := Copied(x.key, x.want, x.at, cache[x.at].bytes[..x.want]);
    }
  }

  // Some set offers the pair.
  predicate Offered(caps: seq<Capset>, key: Key) {
    exists c | c in caps :: c.id == key.id && key.version <= c.maxVersion
  }
}
