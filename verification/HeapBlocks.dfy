/** Blocks by number, where their headers and data lie, and the live data around them. */
module HeapBlocks {
  import opened Bytes
  import opened HeapLayout
  import opened HeapMemory
  import opened HeapSteps

  // ---- Blocks by their number in the list

  /** Where block `k` starts. */
  function Place(bs: Layout, k: nat): nat
    requires k <= |bs|
  {
    Total(bs[..k])
  }

  /** The address of block `k`, or NULL past the last one. */
  function Ptr(start: nat, bs: Layout, k: nat): nat {
    if k < |bs| then start + Place(bs, k) else 0
  }

  function PrevPtr(start: nat, bs: Layout, k: nat): nat
    requires k <= |bs|
  {
    if k == 0 then 0 else start + Place(bs, k - 1)
  }

  lemma Split3(bs: Layout, k: nat)
    requires k < |bs|
    ensures bs[..k] + [bs[k]] + bs[k + 1..] == bs
  {}

  lemma PlaceNext(bs: Layout, k: nat)
    requires k < |bs|
    ensures Place(bs, k + 1) == Place(bs, k) + HEADER + bs[k].size <= Total(bs)
    ensures Place(bs, k + 1) + Total(bs[k + 1..]) == Total(bs)
  {
    PartsOf(bs, k);
    assert bs[..k + 1] == bs[..k] + [bs[k]];
    TotalConcat(bs[..k], [bs[k]]);
    SingleBlock(bs[k]);
  }

  lemma LastPtrIs(start: nat, bs: Layout, k: nat)
    requires k <= |bs|
    ensures LastPtr(start, bs[..k], 0, 0) == PrevPtr(start, bs, k)
  {
    if k > 0 {
      assert bs[..k] == bs[..k - 1] + [bs[k - 1]];
      HeadersConcat(start, bs[..k - 1], [bs[k - 1]], 0, 0, 0);
      HeadersOne(start, bs[k - 1], Total(bs[..k - 1]), LastPtr(start, bs[..k - 1], 0, 0), 0);
    }
  }

  /** The header of block `k`. */
  lemma HeaderInPlace(start: nat, bs: Layout, k: nat)
    requires k < |bs|
    ensures Place(bs, k) in AllHeaders(start, bs)
    ensures AllHeaders(start, bs)[Place(bs, k)] == Linked(bs[k], Ptr(start, bs, k + 1), PrevPtr(start, bs, k))
  {
    Split3(bs, k);
    HeadersMarked(start, bs[..k], bs[k], bs[k + 1..], true, AllHeaders(start, bs), Place(bs, k));
    LastPtrIs(start, bs, k);
    PlaceNext(bs, k);
  }

  /** The number of the block that starts at `o`, or the number of blocks when none does. */
  function BlockOf(bs: Layout, o: int): (k: nat)
    ensures k <= |bs|
  {
    if bs == [] || o == 0 then 0 else 1 + BlockOf(bs[1..], o - HEADER - bs[0].size)
  }

  lemma {:induction false} BlockOfPlace(bs: Layout, k: nat)
    requires k < |bs|
    ensures BlockOf(bs, Place(bs, k)) == k
  {
    if k > 0 {
      BlockOfPlace(bs[1..], k - 1);
      assert bs[1..][..k - 1] == bs[..k][1..];
    }
  }

  /** Headers are at blocks and nowhere else. */
  lemma {:induction false} HeaderIsBlock(start: nat, bs: Layout, off: nat, prev: nat, next: nat, o: nat) returns (k: nat)
    requires o in Headers(start, bs, off, prev, next)
    ensures k < |bs| && o == off + Place(bs, k)
  {
    if o == off {
      k := 0;
    } else {
      k := HeaderIsBlock(start, bs[1..], off + HEADER + bs[0].size, start + off, next, o);
      k := k + 1;
      assert bs[..k][1..] == bs[1..][..k - 1];
    }
  }

  /** Between one header and the next lies the data of the first. */
  ghost predicate Roomy(hs: map<nat, Header>) {
    forall o, p :: o in hs && p in hs && o < p ==> o + HEADER + hs[o].size <= p
  }

  lemma {:induction false} HeadersRoomy(start: nat, bs: Layout, off: nat, prev: nat, next: nat)
    ensures Roomy(Headers(start, bs, off, prev, next))
  {
    if bs != [] {
      HeadersRoomy(start, bs[1..], off + HEADER + bs[0].size, start + off, next);
      HeaderKeys(start, bs[1..], off + HEADER + bs[0].size, start + off, next);
    }
  }

  // ---- Where live data is not

  /** No live block has data between `lo` and `hi`. */
  ghost predicate Clear(bs: Layout, off: nat, lo: nat, hi: nat) {
    bs != [] ==>
      && (bs[0].free || hi <= off + HEADER || off + HEADER + bs[0].size <= lo)
      && Clear(bs[1..], off + HEADER + bs[0].size, lo, hi)
  }

  lemma {:induction false} LiveClear(m: seq<byte>, m': seq<byte>, start: nat, bs: Layout, off: nat, lo: nat, hi: nat)
    requires |m'| == |m| && Clear(bs, off, lo, hi) && forall i :: 0 <= i < |m| && !(lo <= i < hi) ==> m'[i] == m[i]
    ensures LiveMap(m', start, bs, off) == LiveMap(m, start, bs, off)
  {
    if bs != [] {
      LiveClear(m, m', start, bs[1..], off + HEADER + bs[0].size, lo, hi);
      if !bs[0].free { assert DataAt(m', off, bs[0].size) == DataAt(m, off, bs[0].size); }
    }
  }

  lemma {:induction false} ClearBelow(bs: Layout, off: nat, lo: nat, hi: nat)
    requires hi <= off
    ensures Clear(bs, off, lo, hi)
  {
    if bs != [] { ClearBelow(bs[1..], off + HEADER + bs[0].size, lo, hi); }
  }

  lemma {:induction false} ClearAbove(bs: Layout, off: nat, lo: nat, hi: nat)
    requires off + Total(bs) <= lo
    ensures Clear(bs, off, lo, hi)
  {
    if bs != [] { ClearAbove(bs[1..], off + HEADER + bs[0].size, lo, hi); }
  }

  /** A header, and the data of a free block, hold no live data. */
  lemma {:induction false} HeaderClear(start: nat, bs: Layout, off: nat, prev: nat, next: nat, o: nat)
    requires o in Headers(start, bs, off, prev, next)
    ensures var h := Headers(start, bs, off, prev, next)[o];
      && Clear(bs, off, o, o + HEADER)
      && (h.free == 1 ==> Clear(bs, off, o, o + HEADER + h.size))
  {
    var off' := off + HEADER + bs[0].size;
    if o == off {
      ClearBelow(bs[1..], off', o, o + HEADER);
      ClearBelow(bs[1..], off', o, off');
    } else {
      HeaderClear(start, bs[1..], off', start + off, next, o);
      HeaderKeys(start, bs[1..], off', start + off, next);
    }
  }

  lemma {:induction false} ClearInside(bs: Layout, off: nat, lo: nat, hi: nat, lo': nat, hi': nat)
    requires Clear(bs, off, lo, hi) && lo <= lo' && hi' <= hi
    ensures Clear(bs, off, lo', hi')
  {
    if bs != [] { ClearInside(bs[1..], off + HEADER + bs[0].size, lo, hi, lo', hi'); }
  }

  // ---- Live data when the list changes

  lemma LiveSingle(m: seq<byte>, start: nat, x: Block, off: nat)
    ensures LiveMap(m, start, [x], off) == if x.free then map[] else map[start + off + HEADER := DataAt(m, off, x.size)]
  {
    assert [x][1..] == [];
  }

  lemma LiveFreePair(m: seq<byte>, start: nat, x: Block, y: Block, off: nat)
    requires x.free && y.free
    ensures LiveMap(m, start, [x, y], off) == map[] && Total([x, y]) == HEADER + x.size + HEADER + y.size
  {
    assert [x, y][1..] == [y];
    LiveSingle(m, start, y, off + HEADER + x.size);
    SingleBlock(y);
  }

  /** One free block or two: the live data is the same. */
  lemma LiveJoined(m: seq<byte>, start: nat, a: Layout, x: Block, y: Block, c: Layout)
    requires x.free && y.free
    ensures LiveMap(m, start, a + [Block(x.size + HEADER + y.size, true)] + c, 0) == LiveMap(m, start, a + [x, y] + c, 0)
  {
    var xy := Block(x.size + HEADER + y.size, true);
    LiveAround(m, start, a, [x, y], c);
    LiveAround(m, start, a, [xy], c);
    LiveFreePair(m, start, x, y, Total(a));
    LiveSingle(m, start, xy, Total(a));
    SingleBlock(xy);
  }

  /** The live data around one block. */
  lemma LiveOthers(m: seq<byte>, start: nat, a: Layout, x: Block, c: Layout)
    ensures var p, rest := start + Total(a) + HEADER, LiveMap(m, start, a, 0) + LiveMap(m, start, c, Total(a) + HEADER + x.size);
      && p !in rest
      && LiveMap(m, start, a + [x] + c, 0) == if x.free then rest else rest[p := DataAt(m, Total(a), x.size)]
  {
    LiveAround(m, start, a, [x], c);
    LiveSingle(m, start, x, Total(a));
    SingleBlock(x);
    LiveKeys(m, start, a, 0);
    LiveKeys(m, start, c, Total(a) + HEADER + x.size);
  }

  lemma LiveMarked(m: seq<byte>, start: nat, a: Layout, x: Block, c: Layout, free: bool)
    ensures var p, live := start + Total(a) + HEADER, LiveMap(m, start, a + [x] + c, 0);
      LiveMap(m, start, a + [Block(x.size, free)] + c, 0) ==
        if free then live - {p} else live[p := DataAt(m, Total(a), x.size)]
  {
    LiveOthers(m, start, a, x, c);
    LiveOthers(m, start, a, Block(x.size, free), c);
  }

  /** Live data belongs to a live block. */
  lemma {:induction false} LiveIsBlock(m: seq<byte>, start: nat, bs: Layout, off: nat, p: nat) returns (k: nat)
    requires p in LiveMap(m, start, bs, off)
    ensures k < |bs| && p == start + off + Place(bs, k) + HEADER && !bs[k].free
    ensures LiveMap(m, start, bs, off)[p] == DataAt(m, off + Place(bs, k), bs[k].size)
  {
    if !bs[0].free && p == start + off + HEADER {
      k := 0;
    } else {
      k := LiveIsBlock(m, start, bs[1..], off + HEADER + bs[0].size, p);
      k := k + 1;
      assert bs[..k][1..] == bs[1..][..k - 1];
    }
  }

  // ---- A block, or two, between the blocks `a` and `c`

  lemma TotalOfPair(a: Layout, x: Block, y: Block, c: Layout)
    ensures Total(a + [x, y] + c) == Total(a) + HEADER + x.size + HEADER + y.size + Total(c)
  {
    TotalConcat(a + [x, y], c);
    TotalConcat(a, [x, y]);
    SingleBlock(y);
    assert [x, y][1..] == [y];
  }

  ghost predicate InPlace(start: nat, bs: Layout, o: nat) {
    o in AllHeaders(start, bs) && Clear(bs, 0, o, o + HEADER)
  }

  lemma PairInPlace(start: nat, a: Layout, x: Block, y: Block, c: Layout, bs: Layout, ox: nat, oy: nat, oc: nat)
    requires bs == a + [x, y] + c
    requires ox == Total(a) && oy == ox + HEADER + x.size && oc == oy + HEADER + y.size
    ensures InPlace(start, bs, ox) && InPlace(start, bs, oy) && (c != [] ==> InPlace(start, bs, oc))
    ensures AllHeaders(start, bs)[ox] == Linked(x, start + oy, LastPtr(start, a, 0, 0))
    ensures AllHeaders(start, bs)[oy] == Linked(y, NextPtr(start, c, oc), start + ox)
  {
    AllWithTwo(start, a, x, y, c, ox, oy, oc);
    OuterKeys(start, a, ox, oc, start + oy, c);
    HeaderClear(start, bs, 0, 0, 0, ox);
    HeaderClear(start, bs, 0, 0, 0, oy);
    if c != [] { HeaderClear(start, bs, 0, 0, 0, oc); }
  }

  lemma BlockInPlace(start: nat, a: Layout, x: Block, c: Layout, bs: Layout, ox: nat, oc: nat)
    requires bs == a + [x] + c && ox == Total(a) && oc == ox + HEADER + x.size
    ensures InPlace(start, bs, ox) && (c != [] ==> InPlace(start, bs, oc))
    ensures AllHeaders(start, bs)[ox] == Linked(x, NextPtr(start, c, oc), LastPtr(start, a, 0, 0))
    ensures x.free ==> Clear(bs, 0, ox, oc)
  {
    AllWithOne(start, a, x, c, ox, oc);
    OuterKeys(start, a, ox, oc, start + ox, c);
    HeaderClear(start, bs, 0, 0, 0, ox);
    if c != [] { HeaderClear(start, bs, 0, 0, 0, oc); }
  }

  /** A block and the one before it. */
  lemma PrevInPlace(start: nat, a: Layout, x: Block, c: Layout, bs: Layout)
    requires bs == a + [x] + c && a != []
    ensures var p, y := a[..|a| - 1], a[|a| - 1];
      && bs == p + [y, x] + c && Total(a) == Total(p) + HEADER + y.size
      && LastPtr(start, a, 0, 0) == start + Total(p)
      && InPlace(start, bs, Total(p))
      && AllHeaders(start, bs)[Total(p)].free == (if y.free then 1 else 0) && AllHeaders(start, bs)[Total(p)].magic == MAGIC
  {
    var p, y := a[..|a| - 1], a[|a| - 1];
    LastPtrIs(start, a, |a|);
    assert a[..|a|] == a == p + [y];
    TotalConcat(p, [y]);
    SingleBlock(y);
    assert bs == p + [y, x] + c;
    PairInPlace(start, p, y, x, c, bs, Total(p), Total(p) + HEADER + y.size, Total(p) + HEADER + y.size + HEADER + x.size);
  }

  // ---- Writing live data

  /** The data of one allocation begins with `data` now; nothing else changed. */
  ghost predicate LivePut(live: map<nat, seq<byte>>, live': map<nat, seq<byte>>, p: nat, data: seq<byte>) {
    p in live && |data| <= |live[p]| && live' == live[p := Splice(live[p], 0, data)]
  }

  lemma LivePutIn(rest: map<nat, seq<byte>>, live: map<nat, seq<byte>>, live': map<nat, seq<byte>>, p: nat,
                  d: seq<byte>, d': seq<byte>, data: seq<byte>)
    requires live == rest[p := d] && live' == rest[p := d'] && |data| <= |d| && d' == Splice(d, 0, data)
    ensures LivePut(live, live', p, data)
  {}

  /** Bytes written into a live block leave every header, and all other live data, as they were. */
  lemma DataWritten(m: seq<byte>, start: nat, bs: Layout, k: nat, data: seq<byte>)
    requires k < |bs| && !bs[k].free && |data| <= bs[k].size && Total(bs) == |m|
    requires Holds(m, AllHeaders(start, bs))
    ensures Place(bs, k) + HEADER + |data| <= |m|
    ensures var m' := Splice(m, Place(bs, k) + HEADER, data);
      && Holds(m', AllHeaders(start, bs))
      && LivePut(LiveMap(m, start, bs, 0), LiveMap(m', start, bs, 0), start + Place(bs, k) + HEADER, data)
  {
    hide Holds, AllHeaders, LiveMap, LivePut;
    PlaceNext(bs, k);
    var ox, a, c := Place(bs, k), bs[..k], bs[k + 1..];
    var m', oc := Splice(m, ox + HEADER, data), ox + HEADER + bs[k].size;
    DataKeepsHeaders(m, m', start, bs, k);
    Split3(bs, k);
    LiveOthers(m, start, a, bs[k], c);
    LiveOthers(m', start, a, bs[k], c);
    ClearAbove(a, 0, ox + HEADER, oc);
    LiveClear(m, m', start, a, 0, ox + HEADER, oc);
    ClearBelow(c, oc, ox + HEADER, oc);
    LiveClear(m, m', start, c, oc, ox + HEADER, oc);
    assert DataAt(m', ox, bs[k].size) == Splice(DataAt(m, ox, bs[k].size), 0, data);
    LivePutIn(LiveMap(m, start, a, 0) + LiveMap(m, start, c, oc), LiveMap(m, start, bs, 0), LiveMap(m', start, bs, 0),
              start + ox + HEADER, DataAt(m, ox, bs[k].size), DataAt(m', ox, bs[k].size), data);
  }

  lemma DataKeepsHeaders(m: seq<byte>, m': seq<byte>, start: nat, bs: Layout, k: nat)
    requires k < |bs| && Total(bs) == |m| == |m'| && Holds(m, AllHeaders(start, bs))
    requires forall i :: 0 <= i < |m| && !(Place(bs, k) + HEADER <= i < Place(bs, k) + HEADER + bs[k].size) ==> m'[i] == m[i]
    ensures Holds(m', AllHeaders(start, bs))
  {
    var hs, ox := AllHeaders(start, bs), Place(bs, k);
    HeaderInPlace(start, bs, k);
    HeadersRoomy(start, bs, 0, 0, 0);
    forall o | o in hs
      ensures HeldAt(m', o, hs[o])
    {
      assert HeldAt(m, o, hs[o]);
      if o < ox { assert o + HEADER + hs[o].size <= ox; }
      if ox < o { assert ox + HEADER + hs[ox].size <= o; }
      HeaderSame(m, m', o);
    }
  }

  /** Two allocations never overlap: the header of the second lies between them. */
  lemma LiveDisjoint(m: seq<byte>, start: nat, bs: Layout, p: nat, q: nat)
    requires Total(bs) == |m| && p in LiveMap(m, start, bs, 0) && q in LiveMap(m, start, bs, 0) && p < q
    ensures p + |LiveMap(m, start, bs, 0)[p]| + HEADER <= q
  {
    var j := LiveIsBlock(m, start, bs, 0, p);
    var k := LiveIsBlock(m, start, bs, 0, q);
    HeaderInPlace(start, bs, j);
    HeaderInPlace(start, bs, k);
    PlaceNext(bs, j);
    HeadersRoomy(start, bs, 0, 0, 0);
    assert Place(bs, j) in AllHeaders(start, bs) && Place(bs, k) in AllHeaders(start, bs);
  }

  /** Nothing is live exactly if no block is. */
  lemma {:induction false} NothingLive(m: seq<byte>, start: nat, bs: Layout, off: nat)
    ensures LiveMap(m, start, bs, off) == map[] <==> LiveCount(bs) == 0
  {
    if bs != [] {
      NothingLive(m, start, bs[1..], off + HEADER + bs[0].size);
      if !bs[0].free { assert start + off + HEADER in LiveMap(m, start, bs, off); }
    }
  }
}
