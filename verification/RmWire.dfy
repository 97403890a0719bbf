// Byte layout of the Gunyah Resource Manager messages the guest sends and reads.
module RmWire {
  import opened Arith

  type Byte = b: nat | b < 256

  // RM_RPC constants of the driver.
  const API: Byte := 0x21
  const TYPE_REQUEST: Byte := 1
  const TYPE_REPLY: Byte := 2
  const MEM_ACCEPT: nat := 0x51000011
  const MEM_RELEASE: nat := 0x51000014
  const MEM_TYPE_NORMAL: Byte := 0
  const TRANS_TYPE_SHARE: Byte := 2
  // MAP_IPA_CONTIGUOUS | DONE
  const ACCEPT_FLAGS: Byte := 0x90

  function Exp256(n: nat): (r: nat)
    ensures r > 0
  {
    if n == 0 then 1 else 256 * Exp256(n - 1)
  }

  // n little-endian bytes of x.
  function Le(x: nat, n: nat): (r: seq<Byte>)
    ensures |r| == n
    decreases n
  {
    if n == 0 then [] else [x % 256] + Le(x / 256, n - 1)
  }

  function FromLe(bs: seq<Byte>): nat {
    if bs == [] then 0 else bs[0] + 256 * FromLe(bs[1..])
  }

  lemma {:induction false} LeRoundTrip(x: nat, n: nat)
    requires x < Exp256(n)
    ensures FromLe(Le(x, n)) == x
    decreases n
  {
    if n > 0 { LeRoundTrip(x / 256, n - 1); }
  }

  // Byte k of x, the lowest first.
  lemma {:induction false} LeByte(x: nat, n: nat, k: nat)
    requires k < n
    ensures Le(x, n)[k] == x / Exp256(k) % 256
    decreases n
  {
    if k > 0 {
      LeByte(x / 256, n - 1, k - 1);
      DivTwice(x, Exp256(k - 1));
    }
  }

  lemma DivTwice(x: nat, e: nat)
    requires e > 0
    ensures x / 256 / e == x / (256 * e)
  {
    var q, low := x / 256 / e, 256 * (x / 256 % e) + x % 256;
    DivFloor(x / 256, e);
    assert x == q * (256 * e) + low;
    DivModUnique(x, 256 * e, q, low);
  }

  function Header(seqno: nat, msgId: nat): seq<Byte> {
    [API, TYPE_REQUEST] + Le(seqno, 2) + Le(msgId, 4)
  }

  // What precedes the address: header, accept header, empty ACL, a list of one.
  function AcceptHead(seqno: nat, handle: nat): seq<Byte> {
    Header(seqno, MEM_ACCEPT) + Le(handle, 4) + [MEM_TYPE_NORMAL, TRANS_TYPE_SHARE, ACCEPT_FLAGS, 0]
    + Le(0, 4) + Le(0, 4) + Le(1, 2) + Le(0, 2)
  }

  // The 48 bytes of a MEM_ACCEPT request; no memory attributes follow the {gpa, size} pair.
  function EncodeAccept(seqno: nat, handle: nat, gpa: nat, size: nat): seq<Byte> {
    AcceptHead(seqno, handle) + Le(gpa, 8) + Le(size, 8) + Le(0, 2) + Le(0, 2)
  }

  // The 16 bytes of a MEM_RELEASE request.
  function EncodeRelease(seqno: nat, handle: nat): seq<Byte> {
    Header(seqno, MEM_RELEASE) + Le(handle, 4) + Le(0, 4)
  }

  lemma HeaderDecodes(seqno: nat, msgId: nat, handle: nat, rest: seq<Byte>)
    requires seqno < Exp256(2) && msgId < Exp256(4) && handle < Exp256(4)
    ensures var m := Header(seqno, msgId) + Le(handle, 4) + rest;
            && m[0] == API && m[1] == TYPE_REQUEST
            && FromLe(m[2..4]) == seqno && FromLe(m[4..8]) == msgId && FromLe(m[8..12]) == handle
  {
    var m := Header(seqno, msgId) + Le(handle, 4) + rest;
    LeRoundTrip(seqno, 2);
    LeRoundTrip(msgId, 4);
    LeRoundTrip(handle, 4);
    HeaderSlices(API, TYPE_REQUEST, Le(seqno, 2), Le(msgId, 4), Le(handle, 4), rest);
    assert m == [API, TYPE_REQUEST] + Le(seqno, 2) + Le(msgId, 4) + Le(handle, 4) + rest;
  }

  lemma HeaderSlices(a: Byte, b: Byte, s: seq<Byte>, i: seq<Byte>, h: seq<Byte>, rest: seq<Byte>)
    requires |s| == 2 && |i| == |h| == 4
    ensures var m := [a, b] + s + i + h + rest; m[0] == a && m[1] == b && m[2..4] == s && m[4..8] == i && m[8..12] == h
  {}

  lemma Pieces(h: seq<Byte>, g: seq<Byte>, z: seq<Byte>, t: seq<Byte>, u: seq<Byte>)
    ensures var m := h + g + z + t + u;
            && m[..|h|] == h && m[|h|..|h| + |g|] == g && m[|h| + |g|..|h| + |g| + |z|] == z
  {}

  lemma HeadSize(seqno: nat, handle: nat)
    ensures |AcceptHead(seqno, handle)| == 28
    ensures AcceptHead(seqno, handle)[..12] == Header(seqno, MEM_ACCEPT) + Le(handle, 4)
  {}

  // Normal memory, shared, contiguous and done; no label and no ACL; one mapping.
  lemma HeadRest(seqno: nat, handle: nat)
    ensures |AcceptHead(seqno, handle)| == 28
    ensures AcceptHead(seqno, handle)[12..] == [0, 2, 0x90, 0] + [0, 0, 0, 0] + [0, 0, 0, 0] + [1, 0, 0, 0]
  {
    SmallBytes();
    assert AcceptHead(seqno, handle) ==
           Header(seqno, MEM_ACCEPT) + Le(handle, 4) + ([0, 2, 0x90, 0] + [0, 0, 0, 0] + [0, 0, 0, 0] + [1, 0, 0, 0]);
  }

  lemma SmallBytes()
    ensures Le(0, 4) == [0, 0, 0, 0] && Le(0, 2) == [0, 0] && Le(1, 2) == [1, 0]
  {
    assert Le(0, 1) == [0] && Le(0, 3) == [0, 0, 0];
  }

  lemma TailSlices(h: seq<Byte>, rest: seq<Byte>, last: seq<Byte>)
    requires |h| == 28 && |rest| == 16 && |last| == 4
    ensures var m := h + (rest + last); |m| == 48 && m[12..28] == h[12..] && m[44..48] == last
  {
    assert (h + (rest + last))[28..] == rest + last;
    assert (rest + last)[16..] == last;
  }

  lemma AcceptTail(seqno: nat, handle: nat, gpa: nat, size: nat)
    ensures var m := EncodeAccept(seqno, handle, gpa, size);
            |m| == 48 && m[12..28] == AcceptHead(seqno, handle)[12..] && m[44..48] == Le(0, 2) + Le(0, 2)
  {
    HeadSize(seqno, handle);
    var h, rest, last := AcceptHead(seqno, handle), Le(gpa, 8) + Le(size, 8), Le(0, 2) + Le(0, 2);
    TailSlices(h, rest, last);
    assert EncodeAccept(seqno, handle, gpa, size) == h + (rest + last);
  }

  lemma AcceptParts(seqno: nat, handle: nat, gpa: nat, size: nat)
    ensures var m := EncodeAccept(seqno, handle, gpa, size);
            && |m| == 48 && m[..12] == Header(seqno, MEM_ACCEPT) + Le(handle, 4)
            && m[28..36] == Le(gpa, 8) && m[36..44] == Le(size, 8)
  {
    var h := AcceptHead(seqno, handle);
    HeadSize(seqno, handle);
    Pieces(h, Le(gpa, 8), Le(size, 8), Le(0, 2), Le(0, 2));
    assert EncodeAccept(seqno, handle, gpa, size)[..12] == h[..12];
  }

  // What the RM reads back out of a MEM_ACCEPT is what the caller asked for.
  lemma AcceptDecodes(seqno: nat, handle: nat, gpa: nat, size: nat)
    requires seqno < Exp256(2) && handle < Exp256(4) && gpa < Exp256(8) && size < Exp256(8)
    ensures var m := EncodeAccept(seqno, handle, gpa, size);
            && |m| == 48 && m[0] == API && m[1] == TYPE_REQUEST
            && FromLe(m[2..4]) == seqno && FromLe(m[4..8]) == MEM_ACCEPT && FromLe(m[8..12]) == handle
            && m[12..28] == [0, 2, 0x90, 0] + [0, 0, 0, 0] + [0, 0, 0, 0] + [1, 0, 0, 0]
            && FromLe(m[28..36]) == gpa && FromLe(m[36..44]) == size && m[44..48] == [0, 0, 0, 0]
  {
    HeadRest(seqno, handle);
    AcceptTail(seqno, handle, gpa, size);
    SmallBytes();
    AcceptParts(seqno, handle, gpa, size);
    LeRoundTrip(gpa, 8);
    LeRoundTrip(size, 8);
    IdFits();
    HeadFields(EncodeAccept(seqno, handle, gpa, size), seqno, MEM_ACCEPT, handle);
  }

  lemma HeadFields(m: seq<Byte>, seqno: nat, msgId: nat, handle: nat)
    requires seqno < Exp256(2) && msgId < Exp256(4) && handle < Exp256(4)
    requires |m| >= 12 && m[..12] == Header(seqno, msgId) + Le(handle, 4)
    ensures m[0] == API && m[1] == TYPE_REQUEST
    ensures FromLe(m[2..4]) == seqno && FromLe(m[4..8]) == msgId && FromLe(m[8..12]) == handle
  {
    HeaderDecodes(seqno, msgId, handle, m[12..]);
    assert m == m[..12] + m[12..];
  }

  lemma ReleaseDecodes(seqno: nat, handle: nat)
    requires seqno < Exp256(2) && handle < Exp256(4)
    ensures var m := EncodeRelease(seqno, handle);
            && |m| == 16 && m[0] == API && m[1] == TYPE_REQUEST
            && FromLe(m[2..4]) == seqno && FromLe(m[4..8]) == MEM_RELEASE && FromLe(m[8..12]) == handle
            && m[12..16] == [0, 0, 0, 0]
  {
    IdFits();
    SmallBytes();
    HeaderDecodes(seqno, MEM_RELEASE, handle, Le(0, 4));
  }

  lemma IdFits()
    ensures MEM_ACCEPT < Exp256(4) && MEM_RELEASE < Exp256(4)
  {
    assert Exp256(2) == 65536;
  }

  // A message the poll loop takes for a reply: long enough, and REPLY in the low type bits.
  predicate IsReply(bs: seq<Byte>) {
    |bs| >= 12 && bs[1] % 4 == TYPE_REPLY
  }

  function ReplySeq(bs: seq<Byte>): nat
    requires |bs| >= 12
  {
    FromLe(bs[2..4])
  }

  function ReplyErr(bs: seq<Byte>): nat
    requires |bs| >= 12
  {
    FromLe(bs[8..12])
  }

  // put_unaligned_le16/32/64: n bytes at off, the rest of the buffer untouched.
  method PutLe(p: array<Byte>, off: nat, x: nat, n: nat) returns (next: nat)
    requires off + n <= p.Length
    modifies p
    ensures next == off + n
    ensures p[..off + n] == old(p[..off]) + Le(x, n)
    ensures p[off + n..] == old(p[off + n..])
  {
    var i, rest := 0, x;
    ghost var done: seq<Byte> := [];
    while i < n
      invariant 0 <= i <= n && p[..off + i] == old(p[..off]) + done && |done| == i
      invariant done + Le(rest, n - i) == Le(x, n)
      invariant p[off + n..] == old(p[off + n..])
    {
      p[off + i] := rest % 256;
      done := done + [rest % 256];
      rest := rest / 256;
      i := i + 1;
    }
    next := off + n;
  }
}
