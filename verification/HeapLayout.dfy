/** The kernel heap as a list of blocks: what allocating and freeing do to the list. */
module HeapLayout {
  import opened Bytes
  import opened Options

  const HEADER: nat := 29
  const MIN_SPLIT: nat := 64

  datatype Block = Block(size: nat, free: bool)

  type Layout = seq<Block>

  /** The bytes a list of blocks takes, headers included. */
  function Total(bs: Layout): nat {
    if bs == [] then 0 else HEADER + bs[0].size + Total(bs[1..])
  }

  function UsedBytes(bs: Layout): nat {
    if bs == [] then 0 else (if bs[0].free then 0 else bs[0].size) + UsedBytes(bs[1..])
  }

  function FreeBytes(bs: Layout): nat {
    if bs == [] then 0 else (if bs[0].free then bs[0].size else 0) + FreeBytes(bs[1..])
  }

  function LiveCount(bs: Layout): nat {
    if bs == [] then 0 else (if bs[0].free then 0 else 1) + LiveCount(bs[1..])
  }

  /** Every byte is in use, free or in a header. */
  lemma {:induction false} Accounting(bs: Layout)
    ensures UsedBytes(bs) + FreeBytes(bs) + HEADER * |bs| == Total(bs)
  {
    if bs != [] { Accounting(bs[1..]); }
  }

  lemma {:induction false} TotalConcat(a: Layout, b: Layout)
    ensures Total(a + b) == Total(a) + Total(b)
    ensures LiveCount(a + b) == LiveCount(a) + LiveCount(b)
  {
    if a == [] {
      assert a + b == b;
    } else {
      assert (a + b)[0] == a[0] && (a + b)[1..] == a[1..] + b;
      TotalConcat(a[1..], b);
    }
  }

  /** No two neighbours are both free. */
  predicate Coalesced(bs: Layout) {
    |bs| >= 2 ==> !(bs[0].free && bs[1].free) && Coalesced(bs[1..])
  }

  lemma {:induction false} CoalescedConcat(a: Layout, b: Layout)
    ensures Coalesced(a + b) <==>
      Coalesced(a) && Coalesced(b) && (a != [] && b != [] ==> !(a[|a| - 1].free && b[0].free))
  {
    if a == [] {
      assert a + b == b;
    } else {
      assert (a + b)[0] == a[0] && (a + b)[1..] == a[1..] + b;
      CoalescedConcat(a[1..], b);
    }
  }

  // ---- Allocating

  /** A request rounded up to a multiple of 16, in 64 bits. */
  function Rounded(size: nat): nat { U64(size + 15) / 16 * 16 }

  function FirstFit(bs: Layout, n: nat): (k: nat)
    ensures k <= |bs|
    ensures k < |bs| ==> bs[k].free && bs[k].size >= n
    ensures forall i :: 0 <= i < k ==> !(bs[i].free && bs[i].size >= n)
  {
    if bs == [] || (bs[0].free && bs[0].size >= n) then 0 else 1 + FirstFit(bs[1..], n)
  }

  predicate WorthSplitting(b: Block, n: nat)
    requires n <= b.size
  {
    b.size - n > HEADER + MIN_SPLIT
  }

  /** A free block once `n` bytes of it are taken. */
  function Carve(b: Block, n: nat): (r: Layout)
    requires n <= b.size
    ensures Total(r) == Total([b])
    ensures n <= r[0].size <= n + HEADER + MIN_SPLIT && !r[0].free
  {
    var r := if WorthSplitting(b, n) then [Block(n, false), Block(b.size - n - HEADER, true)] else [Block(b.size, false)];
    assert r[1..] == [] || (|r| == 2 && r[1..] == [r[1]] && r[1..][1..] == []);
    r
  }

  function Replace(bs: Layout, k: nat, n: nat, mid: Layout): Layout
    requires k + n <= |bs|
  {
    bs[..k] + mid + bs[k + n..]
  }

  /** The list after a request for `n` bytes that fits. */
  function Malloc(bs: Layout, n: nat): Layout {
    var k := FirstFit(bs, n);
    if k == |bs| then bs else Replace(bs, k, 1, Carve(bs[k], n))
  }

  // ---- Freeing

  /** What follows the freed block, and how far that block reaches, once a free neighbour above is joined. */
  function RestAfter(c: Layout): Layout { if c != [] && c[0].free then c[1..] else c }
  function Reach(size: nat, c: Layout): nat { size + if c != [] && c[0].free then HEADER + c[0].size else 0 }

  function Around(a: Layout, size: nat, rest: Layout): Layout {
    if a != [] && a[|a| - 1].free then a[..|a| - 1] + [Block(a[|a| - 1].size + HEADER + size, true)] + rest
    else a + [Block(size, true)] + rest
  }

  /** The list after the live block `k` is freed: it and its free neighbours are one free block. */
  function Free(bs: Layout, k: nat): Layout
    requires k < |bs|
  {
    Around(bs[..k], Reach(bs[k].size, bs[k + 1..]), RestAfter(bs[k + 1..]))
  }

  // ---- What every operation keeps

  lemma CoalescedAround(a: Layout, mid: Layout, c: Layout)
    requires mid != []
    ensures Coalesced(a + mid + c) <==>
      && Coalesced(a) && Coalesced(mid) && Coalesced(c)
      && (a != [] ==> !(a[|a| - 1].free && mid[0].free))
      && (c != [] ==> !(mid[|mid| - 1].free && c[0].free))
  {
    CoalescedConcat(a, mid);
    CoalescedConcat(a + mid, c);
    assert (a + mid)[|a + mid| - 1] == mid[|mid| - 1];
  }

  lemma SingleBlock(b: Block)
    ensures Total([b]) == HEADER + b.size && LiveCount([b]) == if b.free then 0 else 1
  {
    assert [b][1..] == [];
  }

  lemma {:induction false} WithoutLast(a: Layout)
    requires Coalesced(a) && a != [] && a[|a| - 1].free
    ensures var p := a[..|a| - 1];
      && Coalesced(p) && (p != [] ==> !p[|p| - 1].free)
      && Total(a) == Total(p) + HEADER + a[|a| - 1].size && LiveCount(a) == LiveCount(p)
  {
    var p := a[..|a| - 1];
    if |a| > 1 {
      WithoutLast(a[1..]);
      assert p[1..] == a[1..][..|a| - 2];
      assert |p| > 1 ==> p[0] == a[0] && p[1] == a[1];
    } else {
      assert p == [] && a[1..] == [];
    }
  }

  lemma WithoutFirst(c: Layout)
    requires Coalesced(c) && c != [] && c[0].free
    ensures Coalesced(c[1..]) && (c[1..] != [] ==> !c[1..][0].free)
    ensures Total(c) == Total(c[1..]) + HEADER + c[0].size && LiveCount(c) == LiveCount(c[1..])
  {}

  lemma TotalAround(a: Layout, b: Block, c: Layout)
    ensures Total(a + [b] + c) == Total(a) + HEADER + b.size + Total(c)
    ensures LiveCount(a + [b] + c) == LiveCount(a) + (if b.free then 0 else 1) + LiveCount(c)
  {
    TotalConcat(a + [b], c);
    TotalConcat(a, [b]);
    SingleBlock(b);
  }

  /** A list seen from its `k`-th block. */
  lemma {:induction false} PartsOf(bs: Layout, k: nat)
    requires k < |bs|
    ensures Total(bs) == Total(bs[..k]) + HEADER + bs[k].size + Total(bs[k + 1..])
    ensures LiveCount(bs) == LiveCount(bs[..k]) + (if bs[k].free then 0 else 1) + LiveCount(bs[k + 1..])
    ensures Coalesced(bs) ==>
      && Coalesced(bs[..k]) && Coalesced(bs[k + 1..])
      && (bs[k].free && k > 0 ==> !bs[k - 1].free) && (bs[k].free && k + 1 < |bs| ==> !bs[k + 1].free)
  {
    if k > 0 {
      PartsOf(bs[1..], k - 1);
      assert bs[1..][..k - 1] == bs[..k][1..] && bs[1..][k..] == bs[k + 1..];
    }
  }

  lemma CarveCounts(b: Block, n: nat)
    requires n <= b.size
    ensures LiveCount(Carve(b, n)) == 1 && Coalesced(Carve(b, n))
  {
    var r := Carve(b, n);
    if |r| == 2 { SingleBlock(r[1]); assert r[1..] == [r[1]]; } else { SingleBlock(r[0]); assert r == [r[0]]; }
  }

  lemma MallocKeeps(bs: Layout, n: nat)
    requires Coalesced(bs)
    ensures Coalesced(Malloc(bs, n)) && Total(Malloc(bs, n)) == Total(bs)
    ensures LiveCount(Malloc(bs, n)) == LiveCount(bs) + if FirstFit(bs, n) < |bs| then 1 else 0
  {
    var k := FirstFit(bs, n);
    if k < |bs| {
      var a, r, c := bs[..k], Carve(bs[k], n), bs[k + 1..];
      PartsOf(bs, k);
      CarveCounts(bs[k], n);
      SingleBlock(bs[k]);
      CoalescedAround(a, r, c);
      TotalConcat(a + r, c);
      TotalConcat(a, r);
    }
  }

  lemma FreeKeeps(bs: Layout, k: nat)
    requires Coalesced(bs) && k < |bs| && !bs[k].free
    ensures Coalesced(Free(bs, k)) && Total(Free(bs, k)) == Total(bs)
    ensures LiveCount(Free(bs, k)) == LiveCount(bs) - 1 && Free(bs, k) != []
  {
    var a, c := bs[..k], bs[k + 1..];
    PartsOf(bs, k);
    if c != [] && c[0].free { WithoutFirst(c); }
    AroundKeeps(a, Reach(bs[k].size, c), RestAfter(c));
  }

  lemma AroundKeeps(a: Layout, size: nat, rest: Layout)
    requires Coalesced(a) && Coalesced(rest) && (rest != [] ==> !rest[0].free)
    ensures var r := Around(a, size, rest);
      && Coalesced(r) && r != []
      && Total(r) == Total(a) + HEADER + size + Total(rest) && LiveCount(r) == LiveCount(a) + LiveCount(rest)
  {
    if a != [] && a[|a| - 1].free {
      var p, b := a[..|a| - 1], Block(a[|a| - 1].size + HEADER + size, true);
      WithoutLast(a);
      CoalescedAround(p, [b], rest);
      TotalAround(p, b, rest);
    } else {
      CoalescedAround(a, [Block(size, true)], rest);
      TotalAround(a, Block(size, true), rest);
    }
  }

  // ---- How many bytes are in use

  lemma {:induction false} UsedConcat(a: Layout, b: Layout)
    ensures UsedBytes(a + b) == UsedBytes(a) + UsedBytes(b)
  {
    if a == [] {
      assert a + b == b;
    } else {
      assert (a + b)[0] == a[0] && (a + b)[1..] == a[1..] + b;
      UsedConcat(a[1..], b);
    }
  }

  lemma UsedAround(a: Layout, b: Block, c: Layout)
    ensures UsedBytes(a + [b] + c) == UsedBytes(a) + (if b.free then 0 else b.size) + UsedBytes(c)
  {
    UsedConcat(a + [b], c);
    UsedConcat(a, [b]);
    assert [b][1..] == [];
  }

  lemma UsedOne(b: Block)
    ensures UsedBytes([b]) == if b.free then 0 else b.size
  {
    assert [b][1..] == [];
  }

  lemma CarveUses(b: Block, n: nat)
    requires n <= b.size
    ensures UsedBytes(Carve(b, n)) == Carve(b, n)[0].size
  {
    var r := Carve(b, n);
    if |r| == 2 {
      assert r == [r[0]] + [r[1]];
      UsedConcat([r[0]], [r[1]]);
      UsedOne(r[1]);
    } else {
      assert r == [r[0]];
    }
    UsedOne(r[0]);
  }

  /** A request that fits puts the size of the block it gets in use, and gives back nothing. */
  lemma MallocUses(bs: Layout, n: nat)
    requires FirstFit(bs, n) < |bs|
    ensures UsedBytes(Malloc(bs, n)) == UsedBytes(bs) + Carve(bs[FirstFit(bs, n)], n)[0].size
  {
    hide UsedBytes, Carve;
    var k := FirstFit(bs, n);
    var a, r, c := bs[..k], Carve(bs[k], n), bs[k + 1..];
    assert bs == a + [bs[k]] + c;
    UsedAround(a, bs[k], c);
    CarveUses(bs[k], n);
    UsedConcat(a + r, c);
    UsedConcat(a, r);
  }

  lemma RestUses(c: Layout)
    ensures UsedBytes(RestAfter(c)) == UsedBytes(c)
  {}

  lemma AroundUses(a: Layout, size: nat, rest: Layout)
    ensures UsedBytes(Around(a, size, rest)) == UsedBytes(a) + UsedBytes(rest)
  {
    hide UsedBytes;
    if a != [] && a[|a| - 1].free {
      var p, last := a[..|a| - 1], a[|a| - 1];
      assert a == p + [last];
      UsedConcat(p, [last]);
      UsedOne(last);
      UsedAround(p, Block(last.size + HEADER + size, true), rest);
    } else {
      UsedAround(a, Block(size, true), rest);
    }
  }

  /** Freeing a block takes its size out of use. */
  lemma FreeReturns(bs: Layout, k: nat)
    requires k < |bs| && !bs[k].free
    ensures UsedBytes(Free(bs, k)) == UsedBytes(bs) - bs[k].size
  {
    hide UsedBytes, Around, RestAfter;
    var a, c := bs[..k], bs[k + 1..];
    assert bs == a + [bs[k]] + c;
    UsedAround(a, bs[k], c);
    RestUses(c);
    AroundUses(a, Reach(bs[k].size, c), RestAfter(c));
  }

  lemma CarvedRest(b: Block, n: nat, c: Layout)
    requires n <= b.size && (c != [] ==> !c[0].free)
    ensures RestAfter(Carve(b, n)[1..] + c) == c && Reach(Carve(b, n)[0].size, Carve(b, n)[1..] + c) == b.size
  {
    var r := Carve(b, n);
    if |r| == 2 {
      assert (r[1..] + c)[0] == r[1] && (r[1..] + c)[1..] == c;
    } else {
      assert r[1..] + c == c;
    }
  }

  lemma ReplacedAt(bs: Layout, k: nat, mid: Layout)
    requires k < |bs| && mid != []
    ensures var r := Replace(bs, k, 1, mid);
      r[..k] == bs[..k] && r[k] == mid[0] && r[k + 1..] == mid[1..] + bs[k + 1..]
  {}

  lemma MallocThenFreeParts(bs: Layout, n: nat)
    requires Coalesced(bs) && FirstFit(bs, n) < |bs|
    ensures var k := FirstFit(bs, n);
      Free(Malloc(bs, n), k) == bs[..k] + [bs[k]] + bs[k + 1..]
  {
    var k := FirstFit(bs, n);
    PartsOf(bs, k);
    ReplacedAt(bs, k, Carve(bs[k], n));
    CarvedRest(bs[k], n, bs[k + 1..]);
  }

  /** A request followed at once by its release leaves the list as it was. */
  lemma MallocThenFree(bs: Layout, n: nat)
    requires Coalesced(bs) && FirstFit(bs, n) < |bs|
    ensures Free(Malloc(bs, n), FirstFit(bs, n)) == bs
  {
    hide Free, Malloc, Coalesced;
    var k := FirstFit(bs, n);
    MallocThenFreeParts(bs, n);
    assert bs[..k] + [bs[k]] + bs[k + 1..] == bs;
  }

  lemma TwoBlocks(bs: Layout)
    requires |bs| >= 2
    ensures LiveCount(bs) >= (if bs[0].free then 0 else 1) + if bs[1].free then 0 else 1
  {
    assert bs[1..][0] == bs[1];
  }

  /** With nothing live the heap is one free block again. */
  lemma AllFreeIsOneBlock(bs: Layout)
    requires Coalesced(bs) && LiveCount(bs) == 0 && bs != []
    ensures bs == [Block(Total(bs) - HEADER, true)]
  {
    if |bs| >= 2 {
      TwoBlocks(bs);
      assert false;
    }
    SingleBlock(bs[0]);
  }

  /** Freeing live blocks one after another, each given by its place at that time. */
  ghost function FreeEach(bs: Layout, order: seq<nat>): Option<Layout>
    decreases |order|
  {
    if order == [] then Some(bs)
    else if order[0] < |bs| && !bs[order[0]].free then FreeEach(Free(bs, order[0]), order[1..])
    else None
  }

  /** Freeing everything, in any order, ends with one free block spanning the heap. */
  lemma {:induction false} Quiescence(bs: Layout, order: seq<nat>)
    requires Coalesced(bs) && bs != [] && |order| == LiveCount(bs) && FreeEach(bs, order).Some?
    ensures FreeEach(bs, order).value == [Block(Total(bs) - HEADER, true)]
    decreases |order|
  {
    if order == [] {
      AllFreeIsOneBlock(bs);
    } else {
      FreeKeeps(bs, order[0]);
      Quiescence(Free(bs, order[0]), order[1..]);
    }
  }

  /** Rounding up never loses bytes, except for the requests within 15 of 2^64, which wrap to nothing. */
  lemma RoundedCovers(size: nat)
    requires 0 < size < TWO64
    ensures Rounded(size) % 16 == 0 && (Rounded(size) >= size <==> size <= TWO64 - 16)
    ensures size <= TWO64 - 16 ==> Rounded(size) <= size + 15
    ensures size > TWO64 - 16 ==> Rounded(size) == 0
  {}

  predicate AllFree(bs: Layout) { forall i :: 0 <= i < |bs| ==> bs[i].free }

  lemma FreeRunStart(bs: Layout, j: nat)
    requires 1 < j <= |bs| && AllFree(bs[0..j])
    ensures bs[0].free && bs[1].free
  {
    assert bs[0..j][0] == bs[0] && bs[0..j][1] == bs[1];
  }

  lemma {:induction false} RunsAreSingle(bs: Layout, i: nat, j: nat)
    requires Coalesced(bs) && i < j <= |bs| && AllFree(bs[i..j])
    ensures j == i + 1 && Total(bs[i..j]) - HEADER == bs[i].size && bs[i].free
  {
    assert bs[i..j][0] == bs[i];
    if i > 0 {
      assert bs[1..][i - 1..j - 1] == bs[i..j];
      RunsAreSingle(bs[1..], i - 1, j - 1);
    } else {
      if j > 1 {
        FreeRunStart(bs, j);
        assert false;
      }
      SingleBlock(bs[i]);
      assert bs[i..j] == [bs[i]];
    }
  }

  /** No block fits exactly when no run of neighbouring free blocks has room for the request. */
  lemma NothingFits(bs: Layout, n: nat)
    requires Coalesced(bs)
    ensures FirstFit(bs, n) == |bs| <==>
      forall i: nat, j: nat :: i < j <= |bs| && AllFree(bs[i..j]) ==> Total(bs[i..j]) - HEADER < n
  {
    if FirstFit(bs, n) == |bs| {
      forall i: nat, j: nat | i < j <= |bs| && AllFree(bs[i..j])
        ensures Total(bs[i..j]) - HEADER < n
      {
        RunsAreSingle(bs, i, j);
      }
    } else {
      var k := FirstFit(bs, n);
      assert bs[k..k + 1] == [bs[k]];
      SingleBlock(bs[k]);
      assert AllFree(bs[k..k + 1]);
    }
  }
}
