// The Resource Manager client: one request at a time, a 16-bit sequence number, and a reply queue in
// which answers to requests given up on earlier may still be waiting.
module RmClient {
  import opened Errno
  import opened RmWire

  const MSG_SIZE: nat := 240
  const POLLS: nat := 2000
  const SEQS: nat := 0x1_0000

  // Sequence number of the n-th request since load; the counter starts at 1 and is bumped first.
  function SeqOf(n: nat): nat { (n + 1) % SEQS }

  // Two requests share a sequence number exactly when a multiple of 65536 separates them.
  lemma SeqClashIff(a: nat, b: nat)
    requires a <= b
    ensures SeqOf(a) == SeqOf(b) <==> (b - a) % SEQS == 0
  {}

  // What one poll brought.
  datatype Poll = Nothing | Got(bytes: seq<Byte>)

  // The polls ended with a reply carrying this number, and it is the first that did.
  ghost predicate Replied(polls: seq<Poll>, wanted: nat) {
    && polls != [] && Hit(polls[|polls| - 1], wanted)
    && forall i | 0 <= i < |polls| - 1 :: !Hit(polls[i], wanted)
  }

  ghost predicate Hit(p: Poll, wanted: nat) { p.Got? && Takes(p.bytes, wanted) }

  // The code in that reply.
  ghost function CodeOf(polls: seq<Poll>, wanted: nat): nat
    requires Replied(polls, wanted)
  {
    ReplyErr(polls[|polls| - 1].bytes)
  }

  // All polls were made and none brought such a reply.
  ghost predicate Silent(polls: seq<Poll>, wanted: nat) {
    |polls| == POLLS && forall i | 0 <= i < |polls| :: !Hit(polls[i], wanted)
  }

  // What the poll loop takes for the reply it waits for.
  predicate Takes(bs: seq<Byte>, wanted: nat) { IsReply(bs) && ReplySeq(bs) == wanted }

  // A genuine reply still queued when the next request goes out is taken for that request's if and only
  // if it is a full round of numbers old.
  lemma TakenForNextIff(bs: seq<Byte>, request: nat, sent: nat)
    requires IsReply(bs) && 1 <= request <= sent < request + SEQS && ReplySeq(bs) == SeqOf(request)
    ensures Takes(bs, SeqOf(sent + 1)) <==> sent + 1 == request + SEQS
  {
    SeqClashIff(request, sent + 1);
  }

  function Reply(seqno: nat, err: nat): seq<Byte> {
    [API, TYPE_REPLY] + Le(seqno, 2) + Le(0, 4) + Le(err, 4) + []
  }

  // There is such a reply, with any verdict: the next caller would be told another request's.
  lemma StaleReplyIsTaken(request: nat, err: nat)
    requires request >= 1 && err < Exp256(4)
    ensures var bs := Reply(SeqOf(request), err); Takes(bs, SeqOf(request + SEQS)) && ReplyErr(bs) == err
  {
    HeaderSlices(API, TYPE_REPLY, Le(SeqOf(request), 2), Le(0, 4), Le(err, 4), []);
    assert Exp256(2) == SEQS;
    LeRoundTrip(SeqOf(request), 2);
    LeRoundTrip(err, 4);
    SeqClashIff(request, request + SEQS);
  }

  // request: which request the RM answered with this message (0: none, a notification).
  datatype Message = Message(bytes: seq<Byte>, request: nat)

  // The RM's message queues. verdict(n) is the error code the RM gives the n-th request.
  class Msgq {
    const verdict: nat -> nat
    var replies: seq<Message>
    var sent: nat
    var wire: seq<Byte>       // the last message handed to the send hypercall
    var sendErr: int          // and what the hypercall said

    constructor (verdict: nat -> nat)
      ensures this.verdict == verdict && replies == [] && sent == 0
    {
      this.verdict := verdict;
      replies, sent, wire, sendErr := [], 0, [], 0;
    }

    // Anything the poll loop could take for a reply is the RM's answer to one of the last 65536
    // requests, this one included.
    predicate Genuine(m: Message)
      reads this
    {
      && |m.bytes| <= MSG_SIZE
      && (IsReply(m.bytes) ==>
            && 1 <= m.request <= sent < m.request + SEQS
            && ReplySeq(m.bytes) == SeqOf(m.request)
            && ReplyErr(m.bytes) == verdict(m.request))
    }

    ghost predicate Valid() reads this {
      forall i | 0 <= i < |replies| :: Genuine(replies[i])
    }

    // No reply still queued is so old that the next request would reuse its sequence number.
    ghost predicate RoomForNext() reads this {
      forall i | 0 <= i < |replies| && IsReply(replies[i].bytes) :: sent + 1 < replies[i].request + SEQS
    }

    // The send hypercall. A refused message was never sent, but its number is used up.
    method Send(tx: array<Byte>, len: nat) returns (err: int)
      requires Valid() && RoomForNext() && len <= tx.Length
      modifies this
      ensures Valid() && sent == old(sent) + 1 && replies == old(replies) && wire == tx[..len] && err == sendErr
    {
      sent, wire, sendErr := sent + 1, tx[..len], *;
      err := sendErr;
    }

    // The receive hypercall: the oldest message, if there is one by now.
    method Recv(rx: array<Byte>) returns (err: int, rxlen: nat, ghost m: Message)
      requires Valid() && rx.Length == MSG_SIZE
      modifies this, rx
      ensures Valid() && sent == old(sent) && wire == old(wire) && sendErr == old(sendErr)
      ensures err == 0 ==> Genuine(m) && rxlen == |m.bytes| <= MSG_SIZE && rx[..rxlen] == m.bytes
      ensures err != 0 ==> rxlen == 0 && rx[..] == old(rx[..])
    {
      var arrivals: seq<Message> := *;
      if forall i | 0 <= i < |arrivals| :: Genuine(arrivals[i]) {
        replies := replies + arrivals;
      }
      m := Message([], 0);
      if replies == [] {
        return 1, 0, m;
      }
      var head := replies[0];
      m := head;
      forall i | 0 <= i < |head.bytes| {
        rx[i] := head.bytes[i];
      }
      replies := replies[1..];
      err, rxlen := 0, |head.bytes|;
    }
  }

  class Client {
    const mq: Msgq
    const ready: bool
    const tx: array<Byte>
    const rx: array<Byte>
    var seqno: nat

    ghost predicate Valid() reads this, mq {
      && mq.Valid() && tx.Length == 64 && rx.Length == MSG_SIZE && tx != rx
      && seqno == SeqOf(mq.sent)
    }

    constructor (mq: Msgq, ready: bool)
      requires mq.Valid() && mq.sent == 0
      ensures Valid() && this.mq == mq && this.ready == ready && fresh(tx) && fresh(rx)
    {
      this.mq, this.ready, this.seqno := mq, ready, 1;
      tx := new Byte[64](_ => 0);
      rx := new Byte[MSG_SIZE](_ => 0);
    }

    // Send what is in the buffer and poll for the reply with this sequence number: the first one ends the
    // polling, and its code is reported. A zero return carries the RM's verdict on this very request.
    method Rpc(txlen: nat, wanted: nat) returns (ret: int, errCode: nat, ghost polls: seq<Poll>)
      requires mq.Valid() && mq.RoomForNext() && tx != rx && rx.Length == MSG_SIZE && txlen <= tx.Length
      requires wanted == SeqOf(mq.sent + 1)
      modifies mq, rx
      ensures mq.Valid() && mq.sent == old(mq.sent) + 1 && mq.wire == tx[..txlen]
      ensures ret == (if mq.sendErr != 0 then EIO else if Replied(polls, wanted) then 0 else ETIMEDOUT)
      ensures mq.sendErr != 0 ==> polls == []
      ensures mq.sendErr == 0 ==> Replied(polls, wanted) || Silent(polls, wanted)
      ensures ret == 0 ==> errCode == CodeOf(polls, wanted) == mq.verdict(mq.sent)
    {
      errCode, polls := 0, [];
      var err := mq.Send(tx, txlen);
      if err != 0 {
        return EIO, errCode, polls;
      }
      var i := 0;
      while i < POLLS
        invariant mq.Valid() && mq.sent == old(mq.sent) + 1 && mq.wire == tx[..txlen] && mq.sendErr == 0
        invariant i <= POLLS && |polls| == i && forall j | 0 <= j < i :: !Hit(polls[j], wanted)
      {
        var rxlen;
        ghost var m;
        err, rxlen, m := mq.Recv(rx);
        polls := polls + [if err == 0 then Got(m.bytes) else Nothing];
        if err == 0 { Received(m.bytes, rx, rxlen); }
        if err == 0 && rxlen >= 12 && rx[1] % 4 == TYPE_REPLY && FromLe(rx[2..4]) == wanted {
          SeqClashIff(m.request, mq.sent);
          errCode := FromLe(rx[8..12]);
          assert Replied(polls, wanted);
          return 0, errCode, polls;
        }
        i := i + 1;
      }
      ret := ETIMEDOUT;
    }

    // Write a MEM_ACCEPT into the transmit buffer.
    method FillAccept(handle: nat, gpa: nat, size: nat) returns (off: nat)
      requires tx.Length == 64
      modifies tx
      ensures off == 48 && tx[..48] == EncodeAccept(seqno, handle, gpa, size)
    {
      off := PutHeader(MEM_ACCEPT);
      off := PutLe(tx, off, handle, 4);
      off := PutByte(off, MEM_TYPE_NORMAL);
      off := PutByte(off, TRANS_TYPE_SHARE);
      off := PutByte(off, ACCEPT_FLAGS);
      off := PutByte(off, 0);
      assert tx[..16]
          == Header(seqno, MEM_ACCEPT) + Le(handle, 4) + [MEM_TYPE_NORMAL, TRANS_TYPE_SHARE, ACCEPT_FLAGS, 0];
      off := PutLe(tx, off, 0, 4);
      off := PutLe(tx, off, 0, 4);
      off := PutLe(tx, off, 1, 2);
      off := PutLe(tx, off, 0, 2);
      assert tx[..28] == AcceptHead(seqno, handle);
      off := PutLe(tx, off, gpa, 8);
      off := PutLe(tx, off, size, 8);
      off := PutLe(tx, off, 0, 2);
      off := PutLe(tx, off, 0, 2);
    }

    // Every answer means one thing: 0 or EACCES is the code of the reply to this request, EIO that it was
    // not sent, ETIMEDOUT that no reply came while the polls lasted.
    method MemAccept(handle: nat, gpa: nat, size: nat) returns (ret: int, ghost polls: seq<Poll>)
      requires Valid() && mq.RoomForNext()
      modifies this, mq, tx, rx
      ensures Valid()
      ensures !ready ==> ret == ENODEV && mq.sent == old(mq.sent)
      ensures ready ==> mq.sent == old(mq.sent) + 1 && mq.wire == EncodeAccept(SeqOf(mq.sent), handle, gpa, size)
      ensures ready ==>
                var wanted := SeqOf(mq.sent);
                && (mq.sendErr == 0 ==> Replied(polls, wanted) || Silent(polls, wanted))
                && ret == (if mq.sendErr != 0 then EIO else if !Replied(polls, wanted) then ETIMEDOUT
                           else if CodeOf(polls, wanted) != 0 then EACCES else 0)
      ensures ret == 0 ==> mq.verdict(mq.sent) == 0
      ensures ret == EACCES ==> mq.verdict(mq.sent) != 0
    {
      polls := [];
      if !ready {
        return ENODEV, polls;
      }
      NextSeq(mq.sent);
      seqno := (seqno + 1) % SEQS;
      var off := FillAccept(handle, gpa, size);
      var errCode;
      ret, errCode, polls := Rpc(off, seqno);
      if ret == 0 && errCode != 0 {
        ret := EACCES;
      }
    }

    // The same, but a refusal is reported as EIO too.
    method MemRelease(handle: nat) returns (ret: int, ghost polls: seq<Poll>)
      requires Valid() && mq.RoomForNext()
      modifies this, mq, tx, rx
      ensures Valid()
      ensures !ready ==> ret == ENODEV && mq.sent == old(mq.sent)
      ensures ready ==> mq.sent == old(mq.sent) + 1 && mq.wire == EncodeRelease(SeqOf(mq.sent), handle)
      ensures ready ==>
                var wanted := SeqOf(mq.sent);
                && (mq.sendErr == 0 ==> Replied(polls, wanted) || Silent(polls, wanted))
                && ret == (if mq.sendErr != 0 then EIO else if !Replied(polls, wanted) then ETIMEDOUT
                           else if CodeOf(polls, wanted) != 0 then EIO else 0)
      ensures ret == 0 ==> mq.verdict(mq.sent) == 0
    {
      polls := [];
      if !ready {
        return ENODEV, polls;
      }
      NextSeq(mq.sent);
      seqno := (seqno + 1) % SEQS;
      var off := PutHeader(MEM_RELEASE);
      off := PutLe(tx, off, handle, 4);
      off := PutLe(tx, off, 0, 4);
      var errCode;
      ret, errCode, polls := Rpc(off, seqno);
      if ret == 0 && errCode != 0 {
        ret := EIO;
      }
    }

    method PutByte(off: nat, b: Byte) returns (next: nat)
      requires off < tx.Length
      modifies tx
      ensures next == off + 1 && tx[..off + 1] == old(tx[..off]) + [b]
    {
      tx[off] := b;
      next := off + 1;
    }

    method PutHeader(msgId: nat) returns (off: nat)
      requires tx.Length == 64
      modifies tx
      ensures off == 8 && tx[..8] == Header(seqno, msgId)
    {
      off := PutByte(0, API);
      off := PutByte(off, TYPE_REQUEST);
      off := PutLe(tx, off, seqno, 2);
      off := PutLe(tx, off, msgId, 4);
    }
  }

  // The fields the poll loop reads in the buffer are those of the message.
  lemma Received(bytes: seq<Byte>, rx: array<Byte>, n: nat)
    requires n == |bytes| <= rx.Length && rx[..n] == bytes
    ensures n >= 12 ==> rx[1] == bytes[1] && rx[2..4] == bytes[2..4] && rx[8..12] == bytes[8..12]
  {
    assert forall j | 0 <= j < n :: rx[j] == rx[..n][j];
  }

  lemma NextSeq(n: nat)
    ensures (SeqOf(n) + 1) % SEQS == SeqOf(n + 1)
  {}
}
