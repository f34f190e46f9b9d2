/** The kernel heap: a block list kept in memory, and the operations on it. */
module KernelHeap {
  import opened Bytes
  import opened FileSpec
  import opened HeapLayout
  import opened HeapMemory
  import opened HeapSteps
  import opened HeapBlocks

  ghost predicate Apart(hs: map<nat, Header>, o: nat) {
    forall p :: p in hs ==> p == o || p + HEADER <= o || o + HEADER <= p
  }

  ghost predicate AllEncodable(hs: map<nat, Header>) {
    forall o {:trigger hs[o].Encodable()} :: o in hs ==> hs[o].Encodable()
  }

  /** The block at `ptr` has become live, with room for `n` bytes; all other live data is as it was. */
  ghost predicate HandedOut(live: map<nat, seq<byte>>, live': map<nat, seq<byte>>, ptr: nat, n: nat) {
    && ptr !in live && ptr in live' && live' == live[ptr := live'[ptr]]
    && n <= |live'[ptr]| <= n + HEADER + MIN_SPLIT
  }

  lemma HandedOutOne(live: map<nat, seq<byte>>, live': map<nat, seq<byte>>, ptr: nat, n: nat, d: seq<byte>)
    requires ptr !in live && live' == live[ptr := d] && n <= |d| <= n + HEADER + MIN_SPLIT
    ensures HandedOut(live, live', ptr, n)
  {}

  /** What is handed out is too small exactly for requests that wrap. */
  lemma RoomHandedOut(live: map<nat, seq<byte>>, live': map<nat, seq<byte>>, ptr: nat, size: nat)
    requires 0 < size < TWO64 && HandedOut(live, live', ptr, Rounded(size))
    ensures ptr in live' && (|live'[ptr]| < size <==> size > TWO64 - 16)
  {
    RoundedCovers(size);
  }

  /** A free block cut for `n` bytes, before it is handed out. */
  function Pieces(x: Block, n: nat): Layout
    requires n <= x.size
  {
    if WorthSplitting(x, n) then [Block(n, true), Block(x.size - n - HEADER, true)] else [x]
  }

  lemma PiecesTaken(a: Layout, x: Block, n: nat, c: Layout)
    requires n <= x.size
    ensures var x1, c1 := Pieces(x, n)[0], Pieces(x, n)[1..] + c;
      && n <= x1.size <= n + HEADER + MIN_SPLIT
      && a + Pieces(x, n) + c == a + [x1] + c1 && a + Carve(x, n) + c == a + [Block(x1.size, false)] + c1
  {}

  class Heap {
    const start: nat
    const mem: array<byte>
    ghost var layout: Layout
    ghost var headers: map<nat, Header>

    /** Memory holds the headers. */
    ghost predicate Mirrors()
      reads this, mem
    {
      && 0 < start && start + mem.Length < TWO64
      && Spaced(headers) && AllEncodable(headers) && Holds(mem[..], headers)
    }

    /** The headers are those of the block list, which tiles the heap. */
    ghost predicate Shaped()
      reads this, mem
    {
      && Mirrors()
      && layout != [] && Total(layout) == mem.Length
      && headers == AllHeaders(start, layout)
    }

    ghost predicate Valid()
      reads this, mem
    {
      Shaped() && Coalesced(layout)
    }

    /** The bytes of every live allocation, by the address its user holds. */
    ghost function Live(): map<nat, seq<byte>>
      reads this, mem
    {
      LiveMap(mem[..], start, layout, 0)
    }

    // ---- Bytes and headers

    method Store(o: nat, bs: seq<byte>)
      requires o + |bs| <= mem.Length
      modifies mem
      ensures mem[..] == Splice(old(mem[..]), o, bs)
    {
      for i := 0 to |bs|
        invariant forall j :: 0 <= j < mem.Length ==> mem[j] == if o <= j < o + i then bs[j - o] else old(mem[j])
      {
        mem[o + i] := bs[i];
      }
    }

    method ReadHeader(o: nat) returns (h: Header)
      requires o + HEADER <= mem.Length
      ensures h == HeaderAt(mem[..], o)
      ensures Mirrors() && o in headers ==> h == headers[o] && h.Encodable()
    {
      assert mem[o..o + HEADER] == mem[..][o..o + HEADER];
      h := Decode(mem[o..o + HEADER]);
      assert Mirrors() && o in headers ==> HeldAt(mem[..], o, headers[o]) && headers[o].Encodable();
    }

    method WriteHeader(o: nat, h: Header)
      requires Mirrors() && Apart(headers, o) && Clear(layout, 0, o, o + HEADER)
      requires o + HEADER <= mem.Length && h.Encodable()
      modifies mem, `headers
      ensures Mirrors() && Put(old(headers), headers, o, h) && Live() == old(Live())
    {
      ghost var m := mem[..];
      Store(o, Encode(h));
      HeaderPut(m, headers, o, h);
      headers := headers[o := h];
      LiveClear(m, mem[..], start, layout, 0, o, o + HEADER);
    }

    /** `heap_memset(header, 0, sizeof(heap_block_t))`. */
    method WipeHeader(o: nat)
      requires Mirrors() && Apart(headers, o) && Clear(layout, 0, o, o + HEADER)
      requires o + HEADER <= mem.Length
      modifies mem, `headers
      ensures Mirrors() && Dropped(old(headers), headers, o) && Live() == old(Live())
      ensures mem[..][o..o + HEADER] == Zeros(HEADER)
    {
      ghost var m := mem[..];
      Store(o, Zeros(HEADER));
      HeaderWiped(m, headers, o);
      headers := headers - {o};
      LiveClear(m, mem[..], start, layout, 0, o, o + HEADER);
    }

    /** `if (block) block->prev = prev`, where `block` is the first of `c`. */
    method Relink(block: nat, prev: nat, ghost c: Layout, ghost oc: nat)
      requires Mirrors() && block == NextPtr(start, c, oc) && prev < TWO64
      requires c != [] ==> oc in headers && Clear(layout, 0, oc, oc + HEADER)
      modifies mem, `headers
      ensures Mirrors() && RelinksTo(old(headers), headers, c, oc, prev) && Live() == old(Live())
    {
      if block != 0 {
        assert HeldAt(mem[..], oc, headers[oc]);
        var h := ReadHeader(block - start);
        WriteHeader(block - start, h.(prev := prev));
      }
    }

    // ---- Steps on the block list

    /** A header that may be rewritten where it is. */
    ghost predicate Here(o: nat)
      reads this
    {
      o in headers && Clear(layout, 0, o, o + HEADER)
    }

    method JoinHeaders(ox: nat, ghost c: Layout, ghost oy: nat, ghost oc: nat)
      requires Mirrors() && Here(ox) && Here(oy) && ox < oy && (c != [] ==> Here(oc))
      requires headers[ox].next == start + oy && headers[oy].next == NextPtr(start, c, oc)
      requires headers[ox].size + HEADER + headers[oy].size < TWO64
      modifies mem, `headers
      ensures Mirrors() && headers == JoinedHeaders(old(headers), start, c, ox, oy, oc)
      ensures Live() == old(Live())
      ensures oy + HEADER <= mem.Length && mem[..][oy..oy + HEADER] == Zeros(HEADER)
    {
      assert HeldAt(mem[..], ox, headers[ox]) && HeldAt(mem[..], oy, headers[oy]);
      ghost var hs := headers;
      var hx := ReadHeader(ox);
      var next := hx.next - start;
      var hy := ReadHeader(next);
      WriteHeader(ox, Swallowed(hx, hy));
      ghost var hs1 := headers;
      Relink(hy.next, start + ox, c, oc);
      ghost var hs2 := headers;
      WipeHeader(next);
      JoinWrites(hs, hs1, hs2, headers, start, c, ox, next, oc, hx, hy);
    }

    /** Joins the free block at `ox` with the free block after it. */
    method Absorb(ox: nat, ghost a: Layout, ghost x: Block, ghost y: Block, ghost c: Layout)
      requires Shaped() && layout == a + [x, y] + c && ox == Total(a) && x.free && y.free
      modifies mem, `headers, `layout
      ensures Shaped() && layout == a + [Block(x.size + HEADER + y.size, true)] + c
      ensures Live() == old(Live())
      ensures var oy := ox + HEADER + x.size; oy + HEADER <= mem.Length && mem[..][oy..oy + HEADER] == Zeros(HEADER)
    {
      ghost var oy, oc := ox + HEADER + x.size, ox + HEADER + x.size + HEADER + y.size;
      PairInPlace(start, a, x, y, c, layout, ox, oy, oc);
      TotalOfPair(a, x, y, c);
      HeadersJoined(start, a, x, y, c, headers, ox, oy, oc);
      JoinHeaders(ox, c, oy, oc);
      layout := a + [Block(x.size + HEADER + y.size, true)] + c;
      LiveJoined(mem[..], start, a, x, y, c);
      TotalAround(a, Block(x.size + HEADER + y.size, true), c);
    }

    /** The header of the second half, inside the free data of the block at `ox`. */
    method AddHeader(ox: nat, oy: nat, h: Header, ghost oc: nat)
      requires Mirrors() && Here(ox) && h == headers[ox] && h.Encodable()
      requires ox + HEADER <= oy && oy + HEADER <= oc && oc == ox + HEADER + h.size <= mem.Length
      requires Roomy(headers) && Clear(layout, 0, ox, oc)
      modifies mem, `headers
      ensures Mirrors() && Put(old(headers), headers, oy, Remainder(h, start, ox, oy, oc))
      ensures Live() == old(Live())
    {
      ClearInside(layout, 0, ox, oc, oy, oy + HEADER);
      WriteHeader(oy, Remainder(h, start, ox, oy, ox + HEADER + h.size));
    }

    method SplitHeadersAt(ox: nat, n: nat, ghost c: Layout, ghost oc: nat)
      requires Mirrors() && Here(ox) && (c != [] ==> Here(oc))
      requires n + HEADER <= headers[ox].size && oc == ox + HEADER + headers[ox].size <= mem.Length
      requires headers[ox].next == NextPtr(start, c, oc) && Roomy(headers) && Clear(layout, 0, ox, oc)
      modifies mem, `headers
      ensures Mirrors() && headers == SplitHeaders(old(headers), start, c, ox, n)
      ensures Live() == old(Live())
    {
      ghost var hs := headers;
      var h := ReadHeader(ox);
      var oy := ox + HEADER + n;
      AddHeader(ox, oy, h, oc);
      ghost var hs1 := headers;
      Relink(h.next, start + oy, c, oc);
      ghost var hs2 := headers;
      WriteHeader(ox, h.(size := n, next := start + oy));
      SplitWrites(hs, hs1, hs2, headers, start, c, ox, oy, ox + HEADER + h.size, h);
    }

    method CutBlock(ox: nat, n: nat, ghost a: Layout, ghost x: Block, ghost c: Layout)
      requires Shaped() && layout == a + [x] + c && ox == Total(a) && x.free && n + HEADER <= x.size
      modifies mem, `headers, `layout
      ensures Shaped() && layout == a + [Block(n, true), Block(x.size - n - HEADER, true)] + c
      ensures Live() == old(Live())
    {
      ghost var oc := ox + HEADER + x.size;
      BlockInPlace(start, a, x, c, layout, ox, oc);
      TotalAround(a, x, c);
      HeadersSplit(start, a, x, c, n, headers, ox);
      HeadersRoomy(start, layout, 0, 0, 0);
      SplitHeadersAt(ox, n, c, oc);
      layout := a + [Block(n, true), Block(x.size - n - HEADER, true)] + c;
      LiveJoined(mem[..], start, a, Block(n, true), Block(x.size - n - HEADER, true), c);
      TotalOfPair(a, Block(n, true), Block(x.size - n - HEADER, true), c);
    }

    /** Cuts `n` bytes off the free block at `ox` if what is left is worth a block of its own. */
    method SplitBlock(ox: nat, n: nat, ghost a: Layout, ghost x: Block, ghost c: Layout)
      requires Shaped() && layout == a + [x] + c && ox == Total(a) && x.free && n <= x.size
      modifies mem, `headers, `layout
      ensures Shaped() && layout == a + Pieces(x, n) + c
      ensures Live() == old(Live())
    {
      BlockInPlace(start, a, x, c, layout, ox, ox + HEADER + x.size);
      TotalAround(a, x, c);
      var h := ReadHeader(ox);
      if h.size - n > HEADER + MIN_SPLIT {
        CutBlock(ox, n, a, x, c);
      }
    }

    /** `block->free = free`. */
    method SetFree(ox: nat, free: bool, ghost a: Layout, ghost x: Block, ghost c: Layout)
      requires Shaped() && layout == a + [x] + c && ox == Total(a)
      modifies mem, `headers, `layout
      ensures Shaped() && layout == a + [Block(x.size, free)] + c
      ensures Live() == if free then old(Live()) - {start + ox + HEADER}
                        else old(Live())[start + ox + HEADER := DataAt(mem[..], ox, x.size)]
    {
      ghost var oc := ox + HEADER + x.size;
      BlockInPlace(start, a, x, c, layout, ox, oc);
      TotalAround(a, x, c);
      HeadersMarked(start, a, x, c, free, headers, ox);
      var h := ReadHeader(ox);
      WriteHeader(ox, h.(free := if free then 1 else 0));
      LiveMarked(mem[..], start, a, x, c, free);
      layout := a + [Block(x.size, free)] + c;
      TotalAround(a, Block(x.size, free), c);
    }

    /** First half of `coalesce`: join the next block if it is free. */
    method CoalesceNext(ox: nat, ghost a: Layout, ghost x: Block, ghost c: Layout)
      requires Shaped() && layout == a + [x] + c && ox == Total(a) && x.free
      modifies mem, `headers, `layout
      ensures Shaped() && layout == a + [Block(Reach(x.size, c), true)] + RestAfter(c)
      ensures Live() == old(Live())
    {
      hide Holds, Spaced, AllEncodable, LiveMap, HeaderAt, Headers;
      BlockInPlace(start, a, x, c, layout, ox, ox + HEADER + x.size);
      TotalAround(a, x, c);
      var h := ReadHeader(ox);
      if h.next != 0 {
        ghost var rest := c[1..];
        assert layout == a + [x, c[0]] + rest;
        PairInPlace(start, a, x, c[0], rest, layout, ox, ox + HEADER + x.size, ox + HEADER + x.size + HEADER + c[0].size);
        TotalOfPair(a, x, c[0], rest);
        var next := ReadHeader(h.next - start);
        if next.free != 0 {
          assert next.magic == MAGIC;
          Absorb(ox, a, x, c[0], rest);
        }
      }
    }

    /** What lies at `o` is not, or no longer, the header of a block in use. */
    ghost predicate FreedAt(o: nat)
      reads mem
    {
      o + HEADER <= mem.Length && var h := HeaderAt(mem[..], o); h.magic != MAGIC || h.free != 0
    }

    /** Second half of `coalesce`: join the previous block if it is free. Its own header is then wiped. */
    method CoalescePrev(ox: nat, ghost a: Layout, ghost x: Block, ghost c: Layout)
      requires Shaped() && layout == a + [x] + c && ox == Total(a) && x.free
      modifies mem, `headers, `layout
      ensures Shaped() && layout == Around(a, x.size, c)
      ensures Live() == old(Live()) && FreedAt(ox)
    {
      hide Holds, Spaced, AllEncodable, LiveMap, HeaderAt, Headers;
      BlockInPlace(start, a, x, c, layout, ox, ox + HEADER + x.size);
      TotalAround(a, x, c);
      if a != [] { PrevInPlace(start, a, x, c, layout); }
      var h := ReadHeader(ox);
      if h.prev != 0 {
        ghost var p, y := a[..|a| - 1], a[|a| - 1];
        TotalOfPair(p, y, x, c);
        var prev := ReadHeader(h.prev - start);
        if prev.free != 0 {
          assert prev.magic == MAGIC;
          Absorb(h.prev - start, p, y, x, c);
          WipedHasNoMagic(mem[..], ox);
        }
      }
    }

    /** Joins a block just freed with its free neighbours. */
    method Coalesce(ox: nat, ghost a: Layout, ghost x: Block, ghost c: Layout)
      requires Shaped() && layout == a + [x] + c && ox == Total(a) && x.free
      modifies mem, `headers, `layout
      ensures Shaped() && layout == Around(a, Reach(x.size, c), RestAfter(c))
      ensures Live() == old(Live()) && FreedAt(ox)
    {
      CoalesceNext(ox, a, x, c);
      CoalescePrev(ox, a, Block(Reach(x.size, c), true), RestAfter(c));
    }

    // ---- The allocator's interface

    /** The end of `heap_init`: one free block spanning the mapped region. */
    constructor (start: nat, size: nat)
      requires 0 < start && HEADER <= size && start + size < TWO64
      ensures Valid() && fresh(mem) && this.start == start && mem.Length == size
      ensures layout == [Block(size - HEADER, true)] && Live() == map[]
    {
      this.start := start;
      mem := new byte[size](_ => 0);
      layout := [Block(size - HEADER, true)];
      headers := map[];
      new;
      HeadersOne(start, layout[0], 0, 0, 0);
      LiveSingle(mem[..], start, layout[0], 0);
      ClearBelow([], 0, 0, 0);
      HeaderClear(start, layout, 0, 0, 0, 0);
      WriteHeader(0, Header(size - HEADER, 1, MAGIC, 0, 0));
    }

    /** What a request for `size` bytes does: first fit, or NULL and no change. */
    ghost predicate Allocated(before: Layout, live: map<nat, seq<byte>>, size: nat, ptr: nat)
      reads this, mem
    {
      var k := FirstFit(before, Rounded(size));
      if size == 0 || k == |before| then
        ptr == 0 && layout == before && Live() == live
      else
        && layout == Malloc(before, Rounded(size))
        && ptr == start + Place(before, k) + HEADER
        && HandedOut(live, Live(), ptr, Rounded(size))
    }

    method KMalloc(size: nat) returns (ptr: nat)
      requires Valid() && size < TWO64
      modifies mem, `headers, `layout
      ensures Valid() && Allocated(old(layout), old(Live()), size, ptr)
      ensures ptr != 0 ==> ptr in Live() && (|Live()[ptr]| < size <==> size > TWO64 - 16)
    {
      hide Holds, Spaced, AllEncodable, LiveMap, HeaderAt, HandedOut, Coalesced, Malloc, Carve, Rounded;
      if size == 0 { return 0; }
      var n := Rounded(size);
      var cur := start;
      ghost var k: nat := 0;
      while cur != 0
        invariant unchanged(this, mem)
        invariant k <= |layout| && cur == Ptr(start, layout, k)
        invariant forall i :: 0 <= i < k ==> !(layout[i].free && layout[i].size >= n)
        decreases |layout| - k
      {
        HeaderInPlace(start, layout, k);
        PlaceNext(layout, k);
        var h := ReadHeader(cur - start);
        assert h.magic == MAGIC;
        if h.free != 0 && h.size >= n {
          Take(cur - start, n, k);
          RoomHandedOut(old(Live()), Live(), cur + HEADER, size);
          return cur + HEADER;
        }
        cur := h.next;
        k := k + 1;
      }
      ptr := 0;
    }

    /** Hands out `n` bytes of block `k`. */
    method Take(ox: nat, n: nat, ghost k: nat)
      requires Valid() && k < |layout| && k == FirstFit(layout, n) && ox == Place(layout, k)
      modifies mem, `headers, `layout
      ensures Valid() && layout == Malloc(old(layout), n)
      ensures HandedOut(old(Live()), Live(), start + ox + HEADER, n)
    {
      Split3(layout, k);
      MallocKeeps(layout, n);
      TakeBlock(ox, n, layout[..k], layout[k], layout[k + 1..]);
    }

    method TakeBlock(ox: nat, n: nat, ghost a: Layout, ghost x: Block, ghost c: Layout)
      requires Shaped() && layout == a + [x] + c && ox == Total(a) && x.free && n <= x.size
      modifies mem, `headers, `layout
      ensures Shaped() && layout == a + Carve(x, n) + c
      ensures HandedOut(old(Live()), Live(), start + ox + HEADER, n)
    {
      hide Holds, Spaced, AllEncodable, LiveMap, HeaderAt, AllHeaders, HandedOut;
      LiveOthers(mem[..], start, a, x, c);
      SplitBlock(ox, n, a, x, c);
      ghost var x1, c1 := Pieces(x, n)[0], Pieces(x, n)[1..] + c;
      PiecesTaken(a, x, n, c);
      SetFree(ox, false, a, x1, c1);
      TotalAround(a, Block(x1.size, false), c1);
      HandedOutOne(old(Live()), Live(), start + ox + HEADER, n, DataAt(mem[..], ox, x1.size));
    }

    // ---- Giving memory back

    /** Memory just below `ptr` looks like the header of a live block only if it is one. */
    ghost predicate NotForged(ptr: nat)
      reads this, mem
    {
      && start + HEADER <= ptr <= start + mem.Length
      && var h := HeaderAt(mem[..], ptr - start - HEADER);
         h.magic == MAGIC && h.free == 0 ==> ptr in Live()
    }

    /**
     * `halted` stands for the endless loop a bad or repeated release ends in. What is left of the header of a block that
     * was released does not look like that of a live one.
     */
    method KFree(ptr: nat) returns (halted: bool)
      requires Valid() && (ptr == 0 || NotForged(ptr))
      modifies mem, `headers, `layout
      ensures Valid()
      ensures halted <==> ptr != 0 && ptr !in old(Live())
      ensures halted || ptr == 0 ==> layout == old(layout) && Live() == old(Live())
      ensures ptr != 0 && !halted ==> NotForged(ptr)
      ensures !halted && ptr != 0 ==>
        && Live() == old(Live()) - {ptr}
        && var k := BlockOf(old(layout), ptr - start - HEADER);
           k < |old(layout)| && !old(layout)[k].free && layout == Free(old(layout), k)
    {
      if ptr == 0 { return false; }
      var ox := ptr - start - HEADER;
      if ptr in Live() { LiveHeader(ptr); }
      var h := ReadHeader(ox);
      if h.magic != MAGIC { return true; }
      if h.free != 0 { return true; }
      LiveHeader(ptr);
      Release(ox, BlockOf(layout, ox));
      halted := false;
    }

    /** Releasing an allocation a second time ends in the endless loop, whatever its neighbours were. */
    method FreeTwice(ptr: nat) returns (halted: bool)
      requires Valid() && ptr in Live()
      modifies mem, `headers, `layout
      ensures Valid() && halted && Live() == old(Live()) - {ptr}
    {
      hide Shaped, Coalesced, LiveMap, NotForged, Free, BlockOf;
      LiveIsNotForged(ptr);
      halted := KFree(ptr);
      halted := KFree(ptr);
    }

    /** The addresses of the live allocations fit memory, and nothing is forged there. */
    lemma LiveIsNotForged(ptr: nat)
      requires Valid() && ptr in Live()
      ensures ptr != 0 && NotForged(ptr)
    {
      LiveHeader(ptr);
    }

    /** Once a client has given everything back, the heap is one free block again. */
    lemma NothingLeft()
      requires Valid() && Live() == map[]
      ensures layout == [Block(mem.Length - HEADER, true)]
    {
      NothingLive(mem[..], start, layout, 0);
      AllFreeIsOneBlock(layout);
    }

    /** Every byte of the heap is in a live block, in a free one, or in a header. */
    lemma Balanced()
      requires Valid()
      ensures UsedBytes(layout) + FreeBytes(layout) + HEADER * |layout| == mem.Length
    {
      Accounting(layout);
    }

    /** Giving back live allocations, in any order: exactly they go; and if they are all, the heap is one free block. */
    method FreeAll(ptrs: seq<nat>)
      requires Valid() && (forall i :: 0 <= i < |ptrs| ==> ptrs[i] in Live()) && forall i, j :: 0 <= i < j < |ptrs| ==> ptrs[i] != ptrs[j]
      modifies mem, `headers, `layout
      ensures Valid() && Live() == old(Live()) - (set p | p in ptrs)
      ensures (forall p :: p in old(Live()) ==> p in ptrs) ==> layout == [Block(mem.Length - HEADER, true)]
    {
      hide Mirrors, Shaped, Coalesced, LiveMap, NotForged, Valid;
      for i := 0 to |ptrs|
        invariant Valid() && Live() == old(Live()) - (set p | p in ptrs[..i])
        invariant forall j :: i <= j < |ptrs| ==> ptrs[j] in Live()
      {
        LiveIsNotForged(ptrs[i]);
        var halted := KFree(ptrs[i]);
        assert ptrs[..i + 1] == ptrs[..i] + [ptrs[i]];
      }
      assert ptrs[..|ptrs|] == ptrs;
      if forall p :: p in old(Live()) ==> p in ptrs {
        assert Live() == map[];
        NothingLeft();
      }
    }

    /** The header of a live allocation. */
    lemma LiveHeader(ptr: nat)
      requires Shaped() && ptr in Live()
      ensures start + HEADER <= ptr && ptr + |Live()[ptr]| <= start + mem.Length
      ensures var o, k := ptr - start - HEADER, BlockOf(layout, ptr - start - HEADER);
        && k < |layout| && o == Place(layout, k) && !layout[k].free
        && o in headers && HeldAt(mem[..], o, headers[o])
        && headers[o].magic == MAGIC && headers[o].free == 0 && headers[o].size == layout[k].size == |Live()[ptr]|
        && Live()[ptr] == DataAt(mem[..], o, layout[k].size)
    {
      hide Spaced, AllEncodable, HeaderAt, Total, LiveMap;
      var k := LiveIsBlock(mem[..], start, layout, 0, ptr);
      BlockOfPlace(layout, k);
      HeaderInPlace(start, layout, k);
      PlaceNext(layout, k);
      assert HeldAt(mem[..], Place(layout, k), headers[Place(layout, k)]);
    }

    method Release(ox: nat, ghost k: nat)
      requires Valid() && k < |layout| && !layout[k].free && ox == Place(layout, k)
      modifies mem, `headers, `layout
      ensures Valid() && layout == Free(old(layout), k)
      ensures Live() == old(Live()) - {start + ox + HEADER} && FreedAt(ox)
    {
      ghost var a, x, c := layout[..k], layout[k], layout[k + 1..];
      Split3(layout, k);
      FreeKeeps(layout, k);
      SetFree(ox, true, a, x, c);
      Coalesce(ox, a, Block(x.size, true), c);
    }

    // ---- Filling and copying data

    /** Writing at the start of an allocation changes its bytes and nothing else. */
    method Fill(ptr: nat, bs: seq<byte>)
      requires Valid() && ptr in Live() && |bs| <= |Live()[ptr]|
      modifies mem
      ensures Valid() && LivePut(old(Live()), Live(), ptr, bs)
    {
      hide Spaced, AllEncodable, LiveMap, HeaderAt, AllHeaders, Coalesced, LivePut;
      LiveHeader(ptr);
      ghost var k := BlockOf(layout, ptr - start - HEADER);
      ghost var m := mem[..];
      Store(ptr - start, bs);
      DataWritten(m, start, layout, k, bs);
    }

    method KZalloc(size: nat) returns (ptr: nat)
      requires Valid() && size <= TWO64 - 16
      modifies mem, `headers, `layout
      ensures Valid() && Allocated(old(layout), old(Live()), size, ptr)
      ensures ptr != 0 ==> size <= |Live()[ptr]| && Live()[ptr][..size] == Zeros(size)
    {
      hide Holds, Spaced, AllEncodable, LiveMap, HeaderAt, AllHeaders, Coalesced, Malloc;
      ptr := KMalloc(size);
      if ptr != 0 {
        RoundedCovers(size);
        Fill(ptr, Zeros(size));
      }
    }

    /** What moving an allocation to `size` bytes comes to: the first fit gets its data and it is freed, or nothing fits and nothing changes. */
    ghost predicate Moved(before: Layout, live: map<nat, seq<byte>>, ptr: nat, size: nat, r: nat)
      requires ptr in live
      reads this, mem
    {
      var n := Rounded(size);
      var k := FirstFit(before, n);
      if k == |before| then r == 0 && layout == before && Live() == live else
      && r == start + Place(before, k) + HEADER && r !in live && r in Live() && n <= |Live()[r]|
      && |live[ptr]| <= n && Live()[r][..|live[ptr]|] == live[ptr] && Live() - {r} == live - {ptr}
      && var j := BlockOf(Malloc(before, n), ptr - start - HEADER);
         j < |Malloc(before, n)| && layout == Free(Malloc(before, n), j)
    }

    /**
     * A block that is large enough stays where and as it is. Otherwise the data moves to the first block that fits, and
     * NULL means that there is none and that nothing changed, or that the request was for no bytes and the block was
     * released.
     */
    method KRealloc(ptr: nat, size: nat) returns (r: nat)
      requires Valid() && (ptr == 0 || ptr in Live()) && size <= TWO64 - 16
      modifies mem, `headers, `layout
      ensures Valid()
      ensures ptr == 0 ==> Allocated(old(layout), old(Live()), size, r)
      ensures ptr != 0 && size == 0 ==> r == 0 && Live() == old(Live()) - {ptr}
      ensures ptr != 0 && 0 < size <= |old(Live())[ptr]| ==> r == ptr && mem[..] == old(mem[..]) && layout == old(layout) && Live() == old(Live())
      ensures ptr != 0 && size > |old(Live())[ptr]| ==> Moved(old(layout), old(Live()), ptr, size, r)
      ensures ptr != 0 && r != 0 ==>
        && r in Live() && size <= |Live()[r]|
        && Live() - {r} == old(Live()) - {ptr}
        && var n := Min(size, |old(Live())[ptr]|); Live()[r][..n] == old(Live())[ptr][..n]
    {
      if ptr == 0 { r := KMalloc(size); return; }
      LiveHeader(ptr);
      if size == 0 {
        var halted := KFree(ptr);
        return 0;
      }
      var h := ReadHeader(ptr - start - HEADER);
      assert h.magic == MAGIC;
      if h.size >= size { return ptr; }
      r := Move(ptr, size, h.size);
    }

    /** Copies an allocation of `count` bytes into a new, larger one and releases it. */
    method Move(ptr: nat, size: nat, count: nat) returns (r: nat)
      requires Valid() && ptr in Live() && count == |Live()[ptr]| < size <= TWO64 - 16
      modifies mem, `headers, `layout
      ensures Valid() && Moved(old(layout), old(Live()), ptr, size, r)
      ensures r != 0 ==> r in Live() && size <= |Live()[r]|
    {
      hide Holds, Spaced, AllEncodable, LiveMap, HeaderAt, AllHeaders, Coalesced, Malloc, Free, FirstFit, Rounded;
      r := KMalloc(size);
      if r == 0 { return; }
      RoundedCovers(size);
      LiveHeader(ptr);
      var o := ptr - start;
      var data := mem[o..o + count];
      assert data == Live()[ptr];
      Fill(r, data);
      assert Live()[r][..count] == data;
      LiveHeader(ptr);
      var halted := KFree(ptr);
    }

    // ---- Totals

    method GetUsed() returns (used: nat)
      requires Valid()
      ensures used == UsedBytes(layout)
    {
      used := 0;
      var cur := start;
      ghost var k: nat := 0;
      while cur != 0
        invariant k <= |layout| && cur == Ptr(start, layout, k)
        invariant used + UsedBytes(layout[k..]) == UsedBytes(layout)
        decreases |layout| - k
      {
        HeaderInPlace(start, layout, k);
        PlaceNext(layout, k);
        var h := ReadHeader(cur - start);
        assert layout[k..][1..] == layout[k + 1..];
        if h.free == 0 { used := used + h.size; }
        cur := h.next;
        k := k + 1;
      }
    }

    method GetFree() returns (free: nat)
      requires Valid()
      ensures free == FreeBytes(layout)
    {
      free := 0;
      var cur := start;
      ghost var k: nat := 0;
      while cur != 0
        invariant k <= |layout| && cur == Ptr(start, layout, k)
        invariant free + FreeBytes(layout[k..]) == FreeBytes(layout)
        decreases |layout| - k
      {
        HeaderInPlace(start, layout, k);
        PlaceNext(layout, k);
        var h := ReadHeader(cur - start);
        assert layout[k..][1..] == layout[k + 1..];
        if h.free != 0 { free := free + h.size; }
        cur := h.next;
        k := k + 1;
      }
    }
  }
}
