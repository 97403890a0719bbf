// The three walks over an object's block list: the mem-entries sent to the host, the stitching of a
// user mapping, and the DMA segments of an exported buffer.
module BlockWalks {
  import opened Arith
  import opened Blocks
  import opened Errno

  // Where byte i of the object lies in the pool, reading the blocks in order.
  function AddrAt(bs: seq<Block>, i: nat): nat
    requires i < SumLen(bs)
  {
    if i < bs[0].len then bs[0].off + i else AddrAt(bs[1..], i - bs[0].len)
  }

  lemma {:induction false} AddrInBlock(bs: seq<Block>, k: nat, j: nat)
    requires k < |bs| && j < bs[k].len
    ensures SumLen(bs[..k]) + j < SumLen(bs)
    ensures AddrAt(bs, SumLen(bs[..k]) + j) == bs[k].off + j
  {
    if k > 0 {
      AddrInBlock(bs[1..], k - 1, j);
      assert bs[1..][..k - 1] == bs[..k][1..];
    }
  }

  lemma PrefixSum(bs: seq<Block>, k: nat)
    requires k < |bs|
    ensures SumLen(bs[..k + 1]) == SumLen(bs[..k]) + bs[k].len
  {
    assert bs[..k + 1] == bs[..k] + [bs[k]];
    SumLenAppend(bs[..k], bs[k]);
  }

  ghost predicate Paged(bs: seq<Block>) {
    forall b | b in bs :: b.off % PAGE == 0 && b.len % PAGE == 0 && b.len > 0
  }

  // Every list the pool hands out is made of whole pages.
  lemma CarvedIsPaged(live: set<Block>, bs: seq<Block>, lo: nat, hi: nat, size: nat, m: nat)
    requires PAGE <= m && IsPow2(m) && IsPow2(PAGE) && Carved(live, bs, lo, hi, size, m)
    ensures Paged(bs)
  {
    forall b | b in bs ensures b.off % PAGE == 0 && b.len % PAGE == 0 {
      Pow2Divides(PAGE, m);
      DividesTrans(b.off, m, PAGE);
      Pow2Divides(PAGE, b.len);
    }
  }

  // ----- mmap -----

  // One io_remap_pfn_range call.
  datatype Remap = Remap(uaddr: nat, pfn: nat, len: nat)
  datatype MmapResult = Mapped(runs: seq<Remap>) | Refused(err: int)

  // The calls follow each other without gap or overlap from lo to hi.
  ghost predicate Tiles(rs: seq<Remap>, lo: nat, hi: nat) {
    && (forall j | 0 <= j < |rs| :: rs[j].len > 0)
    && (rs == [] ==> lo == hi)
    && (rs != [] ==> rs[0].uaddr == lo && rs[|rs| - 1].uaddr + rs[|rs| - 1].len == hi)
    && (forall j | 0 < j < |rs| :: rs[j].uaddr == rs[j - 1].uaddr + rs[j - 1].len)
  }

  // Every byte of the call lands where the object's byte at the same distance from start lies.
  ghost predicate Follows(r: Remap, base: nat, bs: seq<Block>, lo: nat, start: nat) {
    lo <= r.uaddr && Lands(r.pfn * PAGE, base, bs, start + (r.uaddr - lo), r.len)
  }

  // len bytes at physical address pa are the object's bytes from x0 on.
  ghost predicate Lands(pa: nat, base: nat, bs: seq<Block>, x0: nat, len: nat) {
    && x0 + len <= SumLen(bs)
    && forall x: nat | x0 <= x < x0 + len :: base + AddrAt(bs, x) == pa + (x - x0)
  }

  lemma BlockLands(base: nat, bs: seq<Block>, k: nat, at: nat, len: nat)
    requires k < |bs| && at + len <= bs[k].len && len > 0
    ensures Lands(base + bs[k].off + at, base, bs, SumLen(bs[..k]) + at, len)
  {
    var x0 := SumLen(bs[..k]) + at;
    AddrInBlock(bs, k, at + len - 1);
    forall x: nat | x0 <= x < x0 + len ensures base + AddrAt(bs, x) == base + bs[k].off + at + (x - x0) {
      AddrInBlock(bs, k, x - SumLen(bs[..k]));
    }
  }

  lemma WholeFrame(pa: nat)
    requires pa % PAGE == 0
    ensures FloorDiv(pa, PAGE) * PAGE == pa
  {}

  lemma {:induction false} TilesFrom(rs: seq<Remap>, lo: nat, hi: nat, i: nat, j: nat)
    requires Tiles(rs, lo, hi) && i < j < |rs|
    ensures rs[i].uaddr + rs[i].len <= rs[j].uaddr
  {
    if i < j - 1 { TilesFrom(rs, lo, hi, i, j - 1); }
  }

  // A tiling reaches every address exactly once.
  lemma {:induction false} TilesHitOnce(rs: seq<Remap>, lo: nat, hi: nat, u: nat) returns (j: nat)
    requires Tiles(rs, lo, hi) && lo <= u < hi
    ensures j < |rs| && rs[j].uaddr <= u < rs[j].uaddr + rs[j].len
    ensures forall i | 0 <= i < |rs| && rs[i].uaddr <= u < rs[i].uaddr + rs[i].len :: i == j
  {
    j := |rs| - 1;
    while rs[j].uaddr > u
      invariant j < |rs| && u < rs[j].uaddr + rs[j].len
    {
      j := j - 1;
    }
    forall i | 0 <= i < |rs| && rs[i].uaddr <= u < rs[i].uaddr + rs[i].len ensures i == j {
      if i < j { TilesFrom(rs, lo, hi, i, j); }
      if j < i { TilesFrom(rs, lo, hi, j, i); }
    }
  }

  // Map length bytes of the object, from page pgoff on, at user address start.
  method Mmap(base: nat, blocks: seq<Block>, nodeSize: nat, start: nat, length: nat, pgoff: nat)
    returns (r: MmapResult)
    requires base % PAGE == 0 && Paged(blocks) && length % PAGE == 0
    ensures r.Refused? ==> r.err == EINVAL
    ensures r.Mapped? <==>
              base != 0 && (pgoff * PAGE) % U64 + length < U64
              && (pgoff * PAGE) % U64 + length <= nodeSize
              && (length == 0 || (pgoff * PAGE) % U64 + length <= SumLen(blocks))
    ensures r.Mapped? ==> Tiles(r.runs, start, start + length)
    ensures r.Mapped? ==> forall c | c in r.runs :: Follows(c, base, blocks, start, (pgoff * PAGE) % U64)
  {
    var from: nat := (pgoff * PAGE) % U64;
    if from + length >= U64 {
      return Refused(EINVAL);
    }
    if from + length > nodeSize {
      return Refused(EINVAL);
    }
    if base == 0 {
      return Refused(EINVAL);
    }
    WholePages(pgoff);
    var runs, uaddr := Stitch(base, blocks, from, start, start + length);
    if uaddr < start + length {
      return Refused(EINVAL);
    }
    r := Mapped(runs);
  }

  lemma WholePages(pgoff: nat)
    ensures ((pgoff * PAGE) % U64) % PAGE == 0
  {}

  // The runs made so far map start up to uaddr, in order and without gaps, to where the object's
  // bytes from offset from on lie.
  ghost predicate Stitched(rs: seq<Remap>, base: nat, bs: seq<Block>, from: nat, start: nat, uaddr: nat) {
    Tiles(rs, start, uaddr) && forall c | c in rs :: Follows(c, base, bs, start, from)
  }

  // Walk the blocks with the cursors skip and uaddr: drop what lies before from, map the rest up to end.
  method Stitch(base: nat, blocks: seq<Block>, from: nat, start: nat, end: nat) returns (runs: seq<Remap>, uaddr: nat)
    requires base % PAGE == 0 && Paged(blocks) && from % PAGE == 0 && start <= end
    ensures start <= uaddr <= end && (uaddr < end <==> start < end && SumLen(blocks) < from + (end - start))
    ensures Stitched(runs, base, blocks, from, start, uaddr)
  {
    var skip: nat := from;
    uaddr, runs := start, [];
    var k := 0;
    while k < |blocks|
      invariant k <= |blocks| && start <= uaddr <= end && skip % PAGE == 0
      invariant skip + SumLen(blocks[..k]) == from + (uaddr - start)
      invariant Stitched(runs, base, blocks, from, start, uaddr)
      invariant uaddr == end ==> start == end
    {
      var off, len := blocks[k].off, blocks[k].len;
      PrefixSum(blocks, k);
      SumSplit(blocks, k);
      if skip >= len {
        DividesSum(skip, len, PAGE);
        skip := skip - len;
        k := k + 1;
        continue;
      }
      ghost var at: nat := skip;
      off := off + skip;
      len := len - skip;
      skip := 0;
      if len > end - uaddr {
        len := end - uaddr;
      }
      if len == 0 {
        break;
      }
      runs := RemapPiece(runs, uaddr, base + off, len, base, blocks, k, at, from, start);
      uaddr := uaddr + len;
      if uaddr >= end {
        break;
      }
      k := k + 1;
    }
    assert k == |blocks| ==> blocks[..k] == blocks;
  }

  method RemapPiece(runs: seq<Remap>, uaddr: nat, pa: nat, len: nat, ghost base: nat, ghost bs: seq<Block>,
                    ghost k: nat, ghost at: nat, ghost from: nat, ghost start: nat) returns (all: seq<Remap>)
    requires k < |bs| && at + len <= bs[k].len && len > 0 && start <= uaddr && pa == base + bs[k].off + at
    requires at + SumLen(bs[..k]) == from + (uaddr - start)
    requires base % PAGE == 0 && Paged(bs) && at % PAGE == 0
    requires Stitched(runs, base, bs, from, start, uaddr)
    ensures all == runs + [Remap(uaddr, FloorDiv(pa, PAGE), len)] && Stitched(all, base, bs, from, start, uaddr + len)
  {
    PieceFollows(base, bs, k, at, len, from, start, uaddr);
    all := runs + [Remap(uaddr, FloorDiv(pa, PAGE), len)];
  }

  lemma PieceFollows(base: nat, bs: seq<Block>, k: nat, at: nat, len: nat, from: nat, start: nat, uaddr: nat)
    requires k < |bs| && at + len <= bs[k].len && len > 0 && start <= uaddr
    requires at + SumLen(bs[..k]) == from + (uaddr - start)
    requires base % PAGE == 0 && Paged(bs) && at % PAGE == 0
    ensures Follows(Remap(uaddr, FloorDiv(base + bs[k].off + at, PAGE), len), base, bs, start, from)
  {
    PagedSum(base, bs[k].off, at);
    BlockLands(base, bs, k, at, len);
  }

  lemma PagedSum(a: nat, b: nat, c: nat)
    requires a % PAGE == 0 && b % PAGE == 0 && c % PAGE == 0
    ensures FloorDiv(a + b + c, PAGE) * PAGE == a + b + c
  {
    DividesSum(a, b, PAGE);
    DividesSum(a + b, c, PAGE);
    WholeFrame(a + b + c);
  }

  lemma SumSplit(bs: seq<Block>, k: nat)
    requires k < |bs|
    ensures SumLen(bs[..k]) + bs[k].len <= SumLen(bs)
  {
    if bs[k].len > 0 { AddrInBlock(bs, k, bs[k].len - 1); } else { SumPrefix(bs, k); }
  }

  lemma {:induction false} SumPrefix(bs: seq<Block>, k: nat)
    requires k <= |bs|
    ensures SumLen(bs[..k]) <= SumLen(bs)
  {
    if k > 0 {
      SumPrefix(bs[1..], k - 1);
      assert bs[1..][..k - 1] == bs[..k][1..];
    }
  }

  // ----- mem-entries -----

  datatype Entry = Entry(addr: nat, length: nat)

  function SumEntries(es: seq<Entry>): nat {
    if es == [] then 0 else es[0].length + SumEntries(es[1..])
  }

  // The guest address the host finds byte i of the resource at.
  function EntryAddr(es: seq<Entry>, i: nat): nat
    requires i < SumEntries(es)
  {
    if i < es[0].length then es[0].addr + i else EntryAddr(es[1..], i - es[0].length)
  }

  // The wire format: a 64-bit address and a 32-bit length.
  function ToEntry(base: nat, b: Block): Entry {
    Entry((base + b.off) % U64, b.len % U32)
  }

  method BuildEntries(base: nat, blocks: seq<Block>) returns (ents: array<Entry>)
    ensures fresh(ents) && ents.Length == |blocks|
    ensures forall k | 0 <= k < |blocks| :: ents[k] == ToEntry(base, blocks[k])
  {
    ents := new Entry[|blocks|](_ => Entry(0, 0));
    var i := 0;
    while i < |blocks|
      invariant 0 <= i <= |blocks|
      invariant forall k | 0 <= k < i :: ents[k] == ToEntry(base, blocks[k])
    {
      ents[i] := Entry((base + blocks[i].off) % U64, blocks[i].len % U32);
      i := i + 1;
    }
  }

  function EntriesOf(base: nat, bs: seq<Block>): seq<Entry> {
    if bs == [] then [] else [ToEntry(base, bs[0])] + EntriesOf(base, bs[1..])
  }

  lemma {:induction false} EntriesPointwise(base: nat, bs: seq<Block>)
    ensures |EntriesOf(base, bs)| == |bs|
    ensures forall k | 0 <= k < |bs| :: EntriesOf(base, bs)[k] == ToEntry(base, bs[k])
  {
    if bs != [] { EntriesPointwise(base, bs[1..]); }
  }

  // The entries describe as many bytes as the blocks hold exactly when every block is below 4 GiB.
  lemma {:induction false} EntriesCompleteIff(base: nat, bs: seq<Block>)
    ensures SumEntries(EntriesOf(base, bs)) <= SumLen(bs)
    ensures SumEntries(EntriesOf(base, bs)) == SumLen(bs) <==> forall b | b in bs :: b.len < U32
  {
    if bs != [] {
      EntriesCompleteIff(base, bs[1..]);
      var es := EntriesOf(base, bs);
      assert es[1..] == EntriesOf(base, bs[1..]);
      assert forall b | b in bs :: b == bs[0] || b in bs[1..];
    }
  }

  // The host and the user mapping agree on every byte.
  lemma {:induction false} EntriesAgree(base: nat, bs: seq<Block>, i: nat)
    requires forall b | b in bs :: b.len < U32 && base + b.off < U64
    requires i < SumLen(bs)
    ensures i < SumEntries(EntriesOf(base, bs)) && EntryAddr(EntriesOf(base, bs), i) == base + AddrAt(bs, i)
  {
    EntriesCompleteIff(base, bs);
    var es := EntriesOf(base, bs);
    assert es[1..] == EntriesOf(base, bs[1..]) && es[0] == Entry(base + bs[0].off, bs[0].len);
    if i >= bs[0].len { EntriesAgree(base, bs[1..], i - bs[0].len); }
  }

  // ----- DMA segments -----

  datatype Segment = Segment(addr: int, len: nat)

  // A segment's length is 32 bits wide; the mapping itself is as long as the block.
  function ToSegment(base: nat, b: Block, dma: nat -> int): Segment { Segment(dma(base + b.off), b.len % U32) }

  function Mapping(base: nat, b: Block, dma: nat -> int): Segment { Segment(dma(base + b.off), b.len) }

  // Map one segment per block; dma gives the bus address of a physical one, negative on failure. noTable
  // and tableErr are the outcomes of the two allocations. held are the mappings left in place, and a
  // failure leaves none if and only if every block mapped before it is below 4 GiB.
  method MapDma(base: nat, blocks: seq<Block>, dma: nat -> int, noTable: bool, tableErr: int)
    returns (ret: int, segs: seq<Segment>, held: multiset<Segment>)
    requires Paged(blocks)
    ensures ret == (if noTable then ENOMEM else if blocks == [] then EINVAL else if tableErr != 0 then tableErr
                    else if exists b | b in blocks :: dma(base + b.off) < 0 then EIO else 0)
    ensures |segs| <= |blocks| && forall k | 0 <= k < |segs| :: segs[k] == ToSegment(base, blocks[k], dma)
    ensures ret == 0 ==> |segs| == |blocks| == |held|
    ensures ret == 0 ==> forall b | b in blocks :: Mapping(base, b, dma) in held
    ensures ret != 0 ==> (held == multiset{} <==> forall k | 0 <= k < |segs| :: blocks[k].len < U32)
  {
    segs, held := [], multiset{};
    if noTable {
      return ENOMEM, segs, held;
    }
    if blocks == [] {
      return EINVAL, segs, held;
    }
    if tableErr != 0 {
      return tableErr, segs, held;
    }
    ghost var maps: seq<Segment> := [];
    var mapped := 0;
    while mapped < |blocks|
      invariant 0 <= mapped <= |blocks| && |segs| == |maps| == mapped && held == multiset(maps)
      invariant forall k | 0 <= k < mapped :: segs[k] == ToSegment(base, blocks[k], dma)
      invariant forall k | 0 <= k < mapped :: maps[k] == Mapping(base, blocks[k], dma) && maps[k].addr >= 0
    {
      var addr := dma(base + blocks[mapped].off);
      if addr < 0 {
        held := UnmapAll(segs, held, maps);
        assert forall k | 0 <= k < mapped :: maps[k].len == blocks[k].len;
        return EIO, segs, held;
      }
      segs := segs + [Segment(addr, blocks[mapped].len % U32)];
      held := held + multiset{Segment(addr, blocks[mapped].len)};
      maps := maps + [Segment(addr, blocks[mapped].len)];
      mapped := mapped + 1;
    }
    assert forall b | b in blocks :: exists k :: 0 <= k < |blocks| && blocks[k] == b;
    assert forall k | 0 <= k < |maps| :: maps[k] in multiset(maps);
    ret := 0;
  }

  lemma DropFirst(maps: seq<Segment>, i: nat)
    requires i < |maps|
    ensures multiset(maps[i..]) - multiset{maps[i]} == multiset(maps[i + 1..])
  {
    assert maps[i..] == [maps[i]] + maps[i + 1..];
  }

  // Undo the mappings segment by segment. A segment whose length was cut off names no mapping.
  method UnmapAll(segs: seq<Segment>, all: multiset<Segment>, ghost maps: seq<Segment>)
    returns (held: multiset<Segment>)
    requires |segs| == |maps| && all == multiset(maps)
    requires forall k | 0 <= k < |segs| :: segs[k] == Segment(maps[k].addr, maps[k].len % U32) && maps[k].len > 0
    ensures held == multiset{} <==> forall k | 0 <= k < |maps| :: maps[k].len < U32
  {
    held := all;
    ghost var short := forall k | 0 <= k < |maps| :: maps[k].len < U32;
    var i := 0;
    ghost var k := 0;
    if !short { k :| 0 <= k < |maps| && maps[k].len >= U32; }
    assert maps[0..] == maps;
    while i < |segs|
      invariant 0 <= i <= |segs|
      invariant short ==> held == multiset(maps[i..])
      invariant !short ==> maps[k] in held
    {
      if short {
        DropFirst(maps, i);
        assert segs[i] == maps[i];
      }
      if segs[i].len != 0 {
        held := held - multiset{segs[i]};
      }
      i := i + 1;
    }
  }
}
