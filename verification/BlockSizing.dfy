// How the pool turns a size and the bound on mem-entries into a minimum block size and a request.
module BlockSizing {
  import opened Arith
  import opened Blocks

  // size is page-aligned; maxNents is guest_pool_max_nents, 0 or less meaning unbounded.
  function MinBlock(size: nat, maxNents: int): nat
    requires size > 0
  {
    if maxNents <= 0 then PAGE
    else
      var m := Max(PAGE, RoundupPow2(FloorDiv((size + maxNents - 1) % U64, maxNents)));
      if m > size then RounddownPow2(size) else m
  }

  function Max(a: nat, b: nat): nat { if a >= b then a else b }

  // The bytes asked of the allocator.
  function Request(size: nat, maxNents: int): nat
    requires size > 0
  {
    if maxNents <= 0 || MinBlock(size, maxNents) == 0 then size
    else AlignUp64(size, MinBlock(size, maxNents))
  }

  // Sizes for which no 64-bit addition in the computation wraps.
  predicate Sane(size: nat, maxNents: int) {
    PAGE <= size <= 0x8000_0000_0000_0000 && size % PAGE == 0 && maxNents < 0x8000_0000
  }

  // The inputs on which the kernel's own arithmetic is defined: the division does not wrap, and the
  // power of two it is rounded up to is a 64-bit number.
  predicate Defined(size: nat, maxNents: int) {
    && PAGE <= size && size % PAGE == 0 && 1 <= maxNents < 0x8000_0000
    && size + maxNents - 1 < U64 && (maxNents == 1 ==> size <= 0x8000_0000_0000_0000)
  }

  lemma PageIsPow2()
    ensures IsPow2(PAGE)
  {
    assert IsPow2(16) && IsPow2(256);
  }

  lemma Pow2Gap(a: nat, b: nat)
    requires IsPow2(a) && IsPow2(b) && a < b
    ensures 2 * a <= b
  {
    Pow2Divides(a, b);
    ExactDiv(b, a);
    MulStrict(2, FloorDiv(b, a), a);
  }

  // The minimum block size is a power of two, at least a page, and never above the size.
  lemma MinBlockShape(size: nat, maxNents: int)
    requires PAGE <= size
    ensures var m := MinBlock(size, maxNents); IsPow2(m) && PAGE <= m <= size
  {
    PageIsPow2();
    var r := RounddownPow2(size);
    if r < PAGE { Pow2Gap(r, PAGE); }
  }

  // ALIGN without wrapping: the least multiple of a at or above x.
  lemma AlignUpExact(x: nat, a: nat)
    requires a > 0 && x + a <= U64
    ensures var r := AlignUp64(x, a); r == CeilDiv(x, a) * a && r % a == 0 && x <= r < x + a
  {
    var t := x + a - 1;
    assert t % U64 == t;
    DivFloor(t, a);
    assert t - t % a == FloorDiv(t, a) * a;
    DividesMul(FloorDiv(t, a), a);
  }

  // The request is the size rounded up by less than a block, or nothing at all when that leaves the
  // 64-bit range.
  lemma RequestShape(size: nat, maxNents: int)
    requires PAGE <= size < U64 && size % PAGE == 0
    ensures var m, r := MinBlock(size, maxNents), Request(size, maxNents);
            && (maxNents <= 0 ==> m == PAGE && r == size)
            && r % m == 0 && if maxNents <= 0 || size + m <= U64 then size <= r < size + m else r == 0
  {
    MinBlockShape(size, maxNents);
    var m := MinBlock(size, maxNents);
    if maxNents > 0 {
      if size + m <= U64 { AlignUpExact(size, m); } else { AlignUpWraps(size, m); }
    }
  }

  lemma AlignUpWraps(x: nat, a: nat)
    requires 0 < a <= x < U64 < x + a
    ensures AlignUp64(x, a) == 0
  {
    var t := x + a - 1 - U64;
    assert (x + a - 1) % U64 == t;
    DivModUnique(t, a, 0, t);
  }

  ghost predicate Meets(bs: seq<Block>, size: nat, maxNents: int)
    requires size > 0
  {
    && SumLen(bs) == Request(size, maxNents)
    && forall b | b in bs :: MinBlock(size, maxNents) <= b.len
  }

  lemma {:induction false} SumAtLeast(bs: seq<Block>, m: nat)
    requires forall b | b in bs :: m <= b.len
    ensures |bs| * m <= SumLen(bs)
  {
    if bs != [] {
      SumAtLeast(bs[1..], m);
      assert |bs| * m == |bs[1..]| * m + m;
    }
  }

  // With a bound of two or more, the clamp to the size never applies.
  lemma NoClamp(size: nat, maxNents: int)
    requires Defined(size, maxNents) && maxNents >= 2
    ensures size <= MinBlock(size, maxNents) * maxNents
    ensures MinBlock(size, maxNents) == Max(PAGE, RoundupPow2(CeilDiv(size, maxNents)))
  {
    var n := CeilDiv(size, maxNents);
    assert (size + maxNents - 1) % U64 == size + maxNents - 1;
    CeilAbove(size, maxNents);
    if n >= 2 { MulMono(2, maxNents, n - 1); assert n * maxNents == (n - 1) * maxNents + maxNents; }
    assert 2 * n <= size + 1;
    var m := Max(PAGE, RoundupPow2(n));
    assert m <= size;
    MulMono(n, m, maxNents);
  }

  // The bound on mem-entries holds for every block list the allocator may return, except when a
  // single block is asked for and the size is not a power of two: then two blocks can come back.
  lemma EntryBoundHoldsIff(size: nat, maxNents: int)
    requires Defined(size, maxNents)
    ensures (forall bs: seq<Block> | Meets(bs, size, maxNents) :: |bs| <= maxNents)
            <==> maxNents >= 2 || IsPow2(size)
  {
    MinBlockShape(size, maxNents);
    var m, r := MinBlock(size, maxNents), Request(size, maxNents);
    assert r < size + m by { AlignBelow(size, m); }
    if maxNents >= 2 {
      NoClamp(size, maxNents);
      forall bs: seq<Block> | Meets(bs, size, maxNents) ensures |bs| <= maxNents {
        SumAtLeast(bs, m);
        if |bs| > maxNents { MulStrict(|bs|, maxNents, m); }
      }
    } else {
      SingleBlock(size);
      if IsPow2(size) {
        forall bs: seq<Block> | Meets(bs, size, maxNents) ensures |bs| <= maxNents {
          SumAtLeast(bs, m);
          if |bs| > 1 { MulStrict(|bs|, 1, m); }
        }
      } else {
        var two := [Block(0, m), Block(m, m)];
        assert two[1..] == [Block(m, m)] && SumLen(two[1..]) == m;
        assert Meets(two, size, maxNents);
      }
    }
  }

  // Whether or not ALIGN wraps.
  lemma AlignBelow(x: nat, a: nat)
    requires a > 0
    ensures AlignUp64(x, a) < x + a
  {}

  lemma SingleBlock(size: nat)
    requires Sane(size, 1)
    ensures IsPow2(size) ==> MinBlock(size, 1) == size == Request(size, 1)
    ensures !IsPow2(size) ==> Request(size, 1) == 2 * MinBlock(size, 1)
  {
    SingleMinBlock(size);
    if IsPow2(size) {
      AlignBetween(size, size, 1);
    } else {
      var down := RounddownPow2(size);
      BelowNonPow2(size, down);
      AlignBetween(size, down, 2);
    }
  }

  lemma BelowNonPow2(size: nat, down: nat)
    requires IsPow2(down) && down <= size < 2 * down && !IsPow2(size)
    ensures (2 - 1) * down < size <= 2 * down
  {
    if down == size { assert false; }
  }

  lemma SingleMinBlock(size: nat)
    requires Sane(size, 1)
    ensures MinBlock(size, 1) == if IsPow2(size) then size else RounddownPow2(size)
  {
    var up := RoundupPow2(size);
    NoWrap(size);
    assert size + 1 - 1 == size;
    assert FloorDiv(size, 1) == size;
    if IsPow2(size) && size < up { Pow2Gap(size, up); }
  }

  lemma AlignBetween(size: nat, m: nat, c: nat)
    requires m > 0 && c > 0 && (c - 1) * m < size <= c * m && size + m <= U64
    ensures AlignUp64(size, m) == c * m
  {
    AlignUpExact(size, m);
    assert c * m == (c - 1) * m + m;
    var d := CeilDiv(size, m);
    MulStrict(d, c, m);
    MulStrict(c, d, m);
  }
}
