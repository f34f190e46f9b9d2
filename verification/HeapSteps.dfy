/** The three ways the heap rewrites headers, each shown to turn the headers of one block list into those of another. */
module HeapSteps {
  import opened HeapLayout
  import opened HeapMemory

  lemma HeadersOne(start: nat, x: Block, off: nat, prev: nat, next: nat)
    ensures Total([x]) == HEADER + x.size
    ensures Headers(start, [x], off, prev, next) == map[off := Linked(x, next, prev)]
    ensures LastPtr(start, [x], off, prev) == start + off
  {
    SingleBlock(x);
    assert [x][1..] == [];
  }

  lemma HeadersTwo(start: nat, x: Block, y: Block, off: nat, prev: nat, next: nat)
    ensures Total([x, y]) == HEADER + x.size + HEADER + y.size
    ensures var oy := off + HEADER + x.size;
      Headers(start, [x, y], off, prev, next) == map[off := Linked(x, start + oy, prev), oy := Linked(y, next, start + off)]
    ensures LastPtr(start, [x, y], off, prev) == start + off + HEADER + x.size
  {
    var bs, oy := [x, y], off + HEADER + x.size;
    assert bs[1..] == [y];
    HeadersOne(start, y, oy, start + off, next);
    assert Headers(start, bs, off, prev, next) == Headers(start, [y], oy, start + off, next)[off := Linked(x, start + oy, prev)];
  }

  /** The headers of a block that follows `a` and precedes `c`. */
  lemma OneBlock(start: nat, a: Layout, x: Block, c: Layout)
    ensures Total([x]) == HEADER + x.size
    ensures Middle(start, a, [x], c) ==
      map[Total(a) := Linked(x, NextPtr(start, c, Total(a) + HEADER + x.size), LastPtr(start, a, 0, 0))]
    ensures LastPtr(start, [x], Total(a), LastPtr(start, a, 0, 0)) == start + Total(a)
  {
    HeadersOne(start, x, Total(a), LastPtr(start, a, 0, 0), NextPtr(start, c, Total(a) + HEADER + x.size));
  }

  lemma TwoBlocks(start: nat, a: Layout, x: Block, y: Block, c: Layout)
    ensures Total([x, y]) == HEADER + x.size + HEADER + y.size
    ensures var ox := Total(a);
      var oy := ox + HEADER + x.size;
      Middle(start, a, [x, y], c) ==
        map[ox := Linked(x, start + oy, LastPtr(start, a, 0, 0)),
            oy := Linked(y, NextPtr(start, c, oy + HEADER + y.size), start + ox)]
    ensures LastPtr(start, [x, y], Total(a), LastPtr(start, a, 0, 0)) == start + Total(a) + HEADER + x.size
  {
    HeadersTwo(start, x, y, Total(a), LastPtr(start, a, 0, 0),
               NextPtr(start, c, Total(a) + HEADER + x.size + HEADER + y.size));
  }

  /** `hs` is made of three parts. */
  ghost predicate InParts(hs: map<nat, Header>, A: map<nat, Header>, M: map<nat, Header>, C: map<nat, Header>) {
    hs == A + M + C
  }

  /** All headers of a heap, with those of one block in it written out. */
  lemma AllWithOne(start: nat, a: Layout, x: Block, c: Layout, ox: nat, oc: nat)
    requires ox == Total(a) && oc == ox + HEADER + x.size
    ensures InParts(AllHeaders(start, a + [x] + c), Before(start, a),
                    map[ox := Linked(x, NextPtr(start, c, oc), LastPtr(start, a, 0, 0))], After(start, oc, start + ox, c))
  {
    HeadersAround(start, a, [x], c);
    OneBlock(start, a, x, c);
  }

  lemma AllWithTwo(start: nat, a: Layout, x: Block, y: Block, c: Layout, ox: nat, oy: nat, oc: nat)
    requires ox == Total(a) && oy == ox + HEADER + x.size && oc == oy + HEADER + y.size
    ensures InParts(AllHeaders(start, a + [x, y] + c), Before(start, a),
                    map[ox := Linked(x, start + oy, LastPtr(start, a, 0, 0)), oy := Linked(y, NextPtr(start, c, oc), start + ox)],
                    After(start, oc, start + oy, c))
  {
    HeadersAround(start, a, [x, y], c);
    TwoBlocks(start, a, x, y, c);
  }

  /** The headers before lie below `lo`, those after from `hi` on. */
  ghost predicate Outside(A: map<nat, Header>, C: map<nat, Header>, lo: nat, hi: nat) {
    (forall o :: o in A ==> o < lo) && (forall o :: o in C ==> hi <= o)
  }

  lemma OuterKeys(start: nat, a: Layout, ox: nat, oc: nat, prev: nat, c: Layout)
    requires ox == Total(a)
    ensures Outside(Before(start, a), After(start, oc, prev, c), ox, oc)
    ensures c != [] ==> oc in After(start, oc, prev, c)
  {
    HeaderKeys(start, a, 0, 0, start + Total(a));
    HeaderKeys(start, c, oc, prev, 0);
  }

  /** The headers of `c` once its first block links back to `prev`. */
  ghost function Relinked(hs: map<nat, Header>, c: Layout, off: nat, prev: nat): map<nat, Header> {
    if c == [] || off !in hs then hs else hs[off := hs[off].(prev := prev)]
  }

  ghost predicate RelinksTo(hs: map<nat, Header>, hs': map<nat, Header>, c: Layout, off: nat, prev: nat) {
    hs' == Relinked(hs, c, off, prev)
  }

  lemma AfterRelinked(start: nat, off: nat, prev: nat, prev': nat, c: Layout)
    ensures RelinksTo(After(start, off, prev, c), After(start, off, prev', c), c, off, prev')
  {}

  lemma {:induction false} LastPtrBound(start: nat, bs: Layout, off: nat, prev: nat)
    ensures LastPtr(start, bs, off, prev) == prev || LastPtr(start, bs, off, prev) <= start + off + Total(bs)
  {
    if bs != [] { LastPtrBound(start, bs[1..], off + HEADER + bs[0].size, start + off); }
  }

  // ---- Joining a block with the one after it

  /** One header written, and one dropped. */
  ghost predicate Put(hs: map<nat, Header>, hs': map<nat, Header>, o: nat, h: Header) { hs' == hs[o := h] }
  ghost predicate Dropped(hs: map<nat, Header>, hs': map<nat, Header>, o: nat) { hs' == hs - {o} }

  /** The three header writes on the map of headers. */
  ghost function JoinedHeaders(hs: map<nat, Header>, start: nat, c: Layout, ox: nat, oy: nat, oc: nat): map<nat, Header>
    requires ox in hs && oy in hs
  {
    Relinked(hs[ox := Swallowed(hs[ox], hs[oy])], c, oc, start + ox) - {oy}
  }

  /** The header of a block that takes in the block after it. */
  function Swallowed(hx: Header, hy: Header): Header { hx.(size := hx.size + HEADER + hy.size, next := hy.next) }

  lemma JoinedParts(hs: map<nat, Header>, hs': map<nat, Header>, A: map<nat, Header>, C: map<nat, Header>, C': map<nat, Header>,
                    start: nat, c: Layout, ox: nat, oy: nat, oc: nat, hx: Header, hy: Header, hxy: Header)
    requires InParts(hs, A, map[ox := hx, oy := hy], C) && InParts(hs', A, map[ox := hxy], C')
    requires RelinksTo(C, C', c, oc, start + ox) && Outside(A, C, ox, oc) && ox < oy < oc
    requires hxy == Swallowed(hx, hy)
    ensures ox in hs && hs[ox] == hx && oy in hs && hs[oy] == hy && hs' == JoinedHeaders(hs, start, c, ox, oy, oc)
  {
    assert hs[ox] == hx && hs[oy] == hy;
  }

  lemma JoinWrites(hs: map<nat, Header>, hs1: map<nat, Header>, hs2: map<nat, Header>, hs3: map<nat, Header>,
                   start: nat, c: Layout, ox: nat, oy: nat, oc: nat, hx: Header, hy: Header)
    requires ox in hs && hs[ox] == hx && oy in hs && hs[oy] == hy
    requires Put(hs, hs1, ox, Swallowed(hx, hy)) && RelinksTo(hs1, hs2, c, oc, start + ox) && Dropped(hs2, hs3, oy)
    ensures hs3 == JoinedHeaders(hs, start, c, ox, oy, oc)
  {}

  lemma HeadersJoined(start: nat, a: Layout, x: Block, y: Block, c: Layout, hs: map<nat, Header>, ox: nat, oy: nat, oc: nat)
    requires x.free && hs == AllHeaders(start, a + [x, y] + c)
    requires ox == Total(a) && oy == ox + HEADER + x.size && oc == oy + HEADER + y.size
    ensures ox in hs && hs[ox].size == x.size && oy in hs && hs[oy].size == y.size
    ensures AllHeaders(start, a + [Block(x.size + HEADER + y.size, true)] + c) == JoinedHeaders(hs, start, c, ox, oy, oc)
  {
    hide Headers, LastPtr, AllHeaders, Before, After, InParts, RelinksTo, Outside, SplitHeaders, JoinedHeaders, NextPtr;
    var xy := Block(x.size + HEADER + y.size, true);
    AllWithTwo(start, a, x, y, c, ox, oy, oc);
    AllWithOne(start, a, xy, c, ox, oc);
    OuterKeys(start, a, ox, oc, start + oy, c);
    AfterRelinked(start, oc, start + oy, start + ox, c);
    JoinedParts(hs, AllHeaders(start, a + [xy] + c), Before(start, a), After(start, oc, start + oy, c),
                After(start, oc, start + ox, c), start, c, ox, oy, oc,
                Linked(x, start + oy, LastPtr(start, a, 0, 0)), Linked(y, NextPtr(start, c, oc), start + ox),
                Linked(xy, NextPtr(start, c, oc), LastPtr(start, a, 0, 0)));
  }

  // ---- Splitting a block

  /** The header, at `oy`, of what is left of the block at `ox`. */
  function Remainder(h: Header, start: nat, ox: nat, oy: nat, oc: nat): Header
    requires oy + HEADER <= oc
  {
    Header(oc - HEADER - oy, 1, MAGIC, h.next, start + ox)
  }

  /** The three header writes that cut `n` bytes off the free block at `ox`. */
  ghost function SplitHeaders(hs: map<nat, Header>, start: nat, c: Layout, ox: nat, n: nat): map<nat, Header>
    requires ox in hs && n + HEADER <= hs[ox].size
  {
    var h, oy := hs[ox], ox + HEADER + n;
    var oc := ox + HEADER + h.size;
    Relinked(hs[oy := Remainder(h, start, ox, oy, oc)], c, oc, start + oy)[ox := h.(size := n, next := start + oy)]
  }

  lemma SplitWrites(hs: map<nat, Header>, hs1: map<nat, Header>, hs2: map<nat, Header>, hs3: map<nat, Header>,
                    start: nat, c: Layout, ox: nat, oy: nat, oc: nat, h: Header)
    requires ox in hs && hs[ox] == h && ox + HEADER <= oy && oy + HEADER <= oc && oc == ox + HEADER + h.size
    requires Put(hs, hs1, oy, Remainder(h, start, ox, oy, oc)) && RelinksTo(hs1, hs2, c, oc, start + oy)
    requires Put(hs2, hs3, ox, h.(size := oy - HEADER - ox, next := start + oy))
    ensures hs3 == SplitHeaders(hs, start, c, ox, oy - HEADER - ox)
  {}

  lemma SplitParts(hs: map<nat, Header>, hs': map<nat, Header>, A: map<nat, Header>, C: map<nat, Header>, C': map<nat, Header>,
                   start: nat, c: Layout, ox: nat, oy: nat, oc: nat, h: Header, hx: Header, hy: Header)
    requires ox + HEADER <= oy && oc == ox + HEADER + h.size && oy + HEADER <= oc
    requires InParts(hs, A, map[ox := h], C) && InParts(hs', A, map[ox := hx, oy := hy], C')
    requires RelinksTo(C, C', c, oc, start + oy) && Outside(A, C, ox, oc)
    requires hx == h.(size := oy - HEADER - ox, next := start + oy)
    requires hy == Remainder(h, start, ox, oy, oc)
    ensures ox in hs && hs[ox] == h && hs' == SplitHeaders(hs, start, c, ox, oy - HEADER - ox)
  {
    assert hs[ox] == h;
  }

  lemma HeadersSplit(start: nat, a: Layout, x: Block, c: Layout, n: nat, hs: map<nat, Header>, ox: nat)
    requires x.free && n + HEADER <= x.size && hs == AllHeaders(start, a + [x] + c) && ox == Total(a)
    ensures ox in hs && hs[ox].size == x.size
    ensures AllHeaders(start, a + [Block(n, true), Block(x.size - n - HEADER, true)] + c) == SplitHeaders(hs, start, c, ox, n)
  {
    hide Headers, LastPtr, AllHeaders, Before, After, InParts, RelinksTo, Outside, SplitHeaders, JoinedHeaders, NextPtr;
    var x1, x2 := Block(n, true), Block(x.size - n - HEADER, true);
    var oy, oc := ox + HEADER + n, ox + HEADER + x.size;
    assert x1 == Block(oy - HEADER - ox, true) && x2 == Block(oc - HEADER - oy, true);
    AllWithOne(start, a, x, c, ox, oc);
    AllWithTwo(start, a, x1, x2, c, ox, oy, oc);
    OuterKeys(start, a, ox, oc, start + ox, c);
    AfterRelinked(start, oc, start + ox, start + oy, c);
    SplitParts(hs, AllHeaders(start, a + [x1, x2] + c), Before(start, a), After(start, oc, start + ox, c),
               After(start, oc, start + oy, c), start, c, ox, oy, oc, Linked(x, NextPtr(start, c, oc), LastPtr(start, a, 0, 0)),
               Linked(x1, start + oy, LastPtr(start, a, 0, 0)), Linked(x2, NextPtr(start, c, oc), start + ox));
  }

  // ---- Marking a block

  lemma MarkedParts(hs: map<nat, Header>, hs': map<nat, Header>, A: map<nat, Header>, C: map<nat, Header>,
                    ox: nat, hx: Header, hx': Header, oc: nat)
    requires InParts(hs, A, map[ox := hx], C) && InParts(hs', A, map[ox := hx'], C) && Outside(A, C, ox, oc) && ox < oc
    ensures ox in hs && hs[ox] == hx && hs' == hs[ox := hx']
  {}

  /** The header of a block in place, and the headers once its flag is changed. */
  lemma HeadersMarked(start: nat, a: Layout, x: Block, c: Layout, free: bool, hs: map<nat, Header>, ox: nat)
    requires hs == AllHeaders(start, a + [x] + c) && ox == Total(a)
    ensures ox in hs && hs[ox] == Linked(x, NextPtr(start, c, ox + HEADER + x.size), LastPtr(start, a, 0, 0))
    ensures AllHeaders(start, a + [Block(x.size, free)] + c) == hs[ox := hs[ox].(free := if free then 1 else 0)]
  {
    var oc := ox + HEADER + x.size;
    AllWithOne(start, a, x, c, ox, oc);
    AllWithOne(start, a, Block(x.size, free), c, ox, oc);
    OuterKeys(start, a, ox, oc, start + ox, c);
    MarkedParts(hs, AllHeaders(start, a + [Block(x.size, free)] + c), Before(start, a), After(start, oc, start + ox, c),
                ox, Linked(x, NextPtr(start, c, oc), LastPtr(start, a, 0, 0)),
                Linked(Block(x.size, free), NextPtr(start, c, oc), LastPtr(start, a, 0, 0)), oc);
  }

  predicate Proper(limit: nat, h: Header) {
    h.free < 256 && h.magic == MAGIC && h.next <= limit && h.prev <= limit
  }

  lemma {:induction false} HeadersTidy(start: nat, bs: Layout, off: nat, prev: nat, next: nat, limit: nat)
    requires start + off + Total(bs) <= limit && prev <= limit && next <= limit
    ensures forall o :: o in Headers(start, bs, off, prev, next) ==>
      var h := Headers(start, bs, off, prev, next)[o];
      o + HEADER + h.size <= off + Total(bs) && Proper(limit, h)
  {
    if bs != [] { HeadersTidy(start, bs[1..], off + HEADER + bs[0].size, start + off, next, limit); }
  }
}
