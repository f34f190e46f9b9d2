/** The page-frame allocator: one bit per 4 KB frame, set while the frame is in use. */
module Pmm {
  const PAGE: nat := 4096

  datatype MemKind = Usable | OtherKind

  /** One region of the boot loader's memory map. */
  datatype Region = Region(base: nat, length: nat, kind: MemKind) {
    function End(): nat { base + length }
  }

  // ---- Bits of a byte

  function Bit(b: bv8, k: bv8): bool
    requires k < 8
  {
    (b >> k) & 1 == 1
  }

  function WithBit(b: bv8, k: bv8): bv8
    requires k < 8
  {
    b | (1 << k)
  }

  function WithoutBit(b: bv8, k: bv8): bv8
    requires k < 8
  {
    b & !(1 << k)
  }

  lemma BitChange(b: bv8, k: bv8, j: bv8)
    requires k < 8 && j < 8
    ensures Bit(WithBit(b, k), j) == (j == k || Bit(b, j))
    ensures Bit(WithoutBit(b, k), j) == (j != k && Bit(b, j))
    ensures Bit(0xFF, j)
  {}

  function BitIndex(page: nat): (k: bv8)
    ensures k < 8
  {
    (page % 8) as bv8
  }

  lemma BitIndexInjective(p: nat, q: nat)
    requires BitIndex(p) == BitIndex(q)
    ensures p % 8 == q % 8
  {}

  // ---- What the bitmap says

  function UsedIn(bits: seq<bv8>, page: nat): bool
    requires page / 8 < |bits|
  {
    Bit(bits[page / 8], BitIndex(page))
  }

  /** The frames below `total` whose bit is clear. */
  ghost function FreeIn(bits: seq<bv8>, total: nat): set<nat> {
    if total == 0 then {} else
    FreeIn(bits, total - 1) + if (total - 1) / 8 < |bits| && !UsedIn(bits, total - 1) then {total - 1} else {}
  }

  /** The number of clear bits among the first `total`. */
  ghost function ClearBits(bits: seq<bv8>, total: nat): nat {
    if total == 0 then 0 else
    ClearBits(bits, total - 1) + if (total - 1) / 8 < |bits| && !UsedIn(bits, total - 1) then 1 else 0
  }

  lemma {:induction false} ClearBitsCountFree(bits: seq<bv8>, total: nat)
    ensures ClearBits(bits, total) == |FreeIn(bits, total)|
  {
    hide UsedIn;
    if total > 0 {
      ClearBitsCountFree(bits, total - 1);
      FreeInAre(bits, total - 1, total - 1);
    }
  }

  /** Changing one bit changes the count by that bit alone. */
  lemma {:induction false} ClearBitsChange(bits: seq<bv8>, bits': seq<bv8>, total: nat, page: nat)
    requires |bits'| == |bits| && page / 8 < |bits|
    requires forall p: nat :: p != page && p / 8 < |bits| ==> UsedIn(bits', p) == UsedIn(bits, p)
    ensures page >= total ==> ClearBits(bits', total) == ClearBits(bits, total)
    ensures page < total ==> ClearBits(bits', total) + (if UsedIn(bits', page) then 1 else 0) ==
                             ClearBits(bits, total) + (if UsedIn(bits, page) then 1 else 0)
  {
    if total > 0 { ClearBitsChange(bits, bits', total - 1, page); }
  }

  lemma {:induction false} FreeInAre(bits: seq<bv8>, total: nat, p: nat)
    ensures p in FreeIn(bits, total) <==> p < total && p / 8 < |bits| && !UsedIn(bits, p)
  {
    if total > 0 { FreeInAre(bits, total - 1, p); }
  }

  lemma FreeBelow(bits: seq<bv8>, total: nat)
    ensures forall p :: p in FreeIn(bits, total) ==> p < total
  {
    forall p | p in FreeIn(bits, total) ensures p < total { FreeInAre(bits, total, p); }
  }

  lemma UsedAfterClear(bits: seq<bv8>, page: nat, p: nat)
    requires page / 8 < |bits| && p / 8 < |bits|
    ensures UsedIn(bits[page / 8 := WithoutBit(bits[page / 8], BitIndex(page))], p) == (p != page && UsedIn(bits, p))
  {
    BitChange(bits[page / 8], BitIndex(page), BitIndex(p));
    if BitIndex(page) == BitIndex(p) { BitIndexInjective(page, p); }
  }

  lemma UsedAfterSet(bits: seq<bv8>, page: nat, p: nat)
    requires page / 8 < |bits| && p / 8 < |bits|
    ensures UsedIn(bits[page / 8 := WithBit(bits[page / 8], BitIndex(page))], p) == (p == page || UsedIn(bits, p))
  {
    BitChange(bits[page / 8], BitIndex(page), BitIndex(p));
    if BitIndex(page) == BitIndex(p) { BitIndexInjective(page, p); }
  }

  lemma FreeAfterClear(bits: seq<bv8>, total: nat, page: nat)
    requires total <= 8 * |bits| && page < total
    ensures FreeIn(bits[page / 8 := WithoutBit(bits[page / 8], BitIndex(page))], total) == FreeIn(bits, total) + {page}
    ensures ClearBits(bits[page / 8 := WithoutBit(bits[page / 8], BitIndex(page))], total) ==
      ClearBits(bits, total) + if UsedIn(bits, page) then 1 else 0
  {
    var bits' := bits[page / 8 := WithoutBit(bits[page / 8], BitIndex(page))];
    forall p: nat
      ensures p in FreeIn(bits', total) <==> p in FreeIn(bits, total) + {page}
    {
      FreeInAre(bits, total, p);
      FreeInAre(bits', total, p);
      if p < total { UsedAfterClear(bits, page, p); }
    }
    forall p: nat | p / 8 < |bits| ensures UsedIn(bits', p) == (p != page && UsedIn(bits, p)) { UsedAfterClear(bits, page, p); }
    ClearBitsChange(bits, bits', total, page);
  }

  lemma FreeAfterSet(bits: seq<bv8>, total: nat, page: nat)
    requires total <= 8 * |bits| && page / 8 < |bits|
    ensures FreeIn(bits[page / 8 := WithBit(bits[page / 8], BitIndex(page))], total) == FreeIn(bits, total) - {page}
    ensures ClearBits(bits[page / 8 := WithBit(bits[page / 8], BitIndex(page))], total) ==
      ClearBits(bits, total) - if page < total && !UsedIn(bits, page) then 1 else 0
  {
    var bits' := bits[page / 8 := WithBit(bits[page / 8], BitIndex(page))];
    forall p: nat
      ensures p in FreeIn(bits', total) <==> p in FreeIn(bits, total) - {page}
    {
      FreeInAre(bits, total, p);
      FreeInAre(bits', total, p);
      if p < total { UsedAfterSet(bits, page, p); }
    }
    forall p: nat | p / 8 < |bits| ensures UsedIn(bits', p) == (p == page || UsedIn(bits, p)) { UsedAfterSet(bits, page, p); }
    ClearBitsChange(bits, bits', total, page);
  }

  // ---- The memory map

  /** What the boot protocol promises: usable regions are page-aligned and do not overlap, and nothing wraps. */
  predicate GoodMap(mm: seq<Region>) {
    && (forall i :: 0 <= i < |mm| ==> mm[i].End() + PAGE <= 0x1_0000_0000_0000_0000)
    && (forall i :: 0 <= i < |mm| && mm[i].kind.Usable? ==> mm[i].base % PAGE == 0 && mm[i].length % PAGE == 0)
    && (forall i, j :: 0 <= i < j < |mm| && mm[i].kind.Usable? && mm[j].kind.Usable? ==>
         mm[i].End() <= mm[j].base || mm[j].End() <= mm[i].base)
  }

  /** Frame `p` lies wholly inside region `r`. */
  predicate Inside(r: Region, p: nat) {
    r.base <= p * PAGE && (p + 1) * PAGE <= r.End()
  }

  function Highest(mm: seq<Region>): (h: nat)
    ensures forall i :: 0 <= i < |mm| ==> mm[i].End() <= h
    ensures h == 0 || exists i :: 0 <= i < |mm| && mm[i].End() == h
  {
    if mm == [] then 0 else
    var h := Highest(mm[..|mm| - 1]);
    if mm[|mm| - 1].End() > h then mm[|mm| - 1].End() else h
  }

  function BitmapSize(total: nat): nat { (total + 7) / 8 }

  predicate Holds(r: Region, size: nat) { r.kind.Usable? && r.length >= size }

  /** The first region that can hold the bitmap, or `|mm|`. */
  ghost function Host(mm: seq<Region>, size: nat): (k: nat)
    ensures k <= |mm| && (k < |mm| ==> Holds(mm[k], size))
    ensures forall i :: 0 <= i < k ==> !Holds(mm[i], size)
  {
    if mm == [] then 0 else
    var k := Host(mm[..|mm| - 1], size);
    if k < |mm| - 1 || Holds(mm[|mm| - 1], size) then k else |mm|
  }

  function Range(a: nat, b: nat): (r: set<nat>)
    ensures forall p :: p in r <==> a <= p < b
    decreases b
  {
    if b <= a then {} else Range(a, b - 1) + {b - 1}
  }

  function FramesOf(r: Region): (frames: set<nat>)
    ensures forall p :: p in frames <==> Inside(r, p)
  {
    Range(AlignUp(r.base) / PAGE, r.End() / PAGE)
  }

  /** The frames that hold the bitmap when it is placed at the start of `host`. */
  function OwnFrames(host: Region, size: nat): set<nat> {
    Range(host.base / PAGE, host.base / PAGE + (size + PAGE - 1) / PAGE)
  }

  /** Frame `p` and the `size` bytes from the start of `host` on have a byte in common. */
  predicate HasBitmapBytes(host: Region, size: nat, p: nat) { p * PAGE < host.base + size && host.base < (p + 1) * PAGE }

  /** These are the frames in which bytes of the bitmap lie, and no others. */
  lemma OwnFramesAre(host: Region, size: nat, p: nat)
    requires host.base % PAGE == 0
    ensures p in OwnFrames(host, size) <==> HasBitmapBytes(host, size, p)
  {
    var b := host.base / PAGE;
    assert host.base == b * PAGE;
  }

  /** What `Init` leaves free: every frame inside a usable region in which no byte of the bitmap lies. */
  lemma FreeAfterInit(mm: seq<Region>, k: nat, size: nat, p: nat)
    requires GoodMap(mm) && k < |mm| && mm[k].kind.Usable?
    ensures p in UsableFrames(mm, |mm|) - OwnFrames(mm[k], size) <==>
      (exists i :: 0 <= i < |mm| && mm[i].kind.Usable? && Inside(mm[i], p)) && !HasBitmapBytes(mm[k], size, p)
  {
    UsableFramesAre(mm, |mm|, p);
    OwnFramesAre(mm[k], size, p);
  }

  function UsableFrames(mm: seq<Region>, n: nat): (frames: set<nat>)
    requires n <= |mm|
  {
    if n == 0 then {} else
    UsableFrames(mm, n - 1) + if mm[n - 1].kind.Usable? then FramesOf(mm[n - 1]) else {}
  }

  /** These are the frames wholly inside one of the first `n` regions, if that one is usable. */
  lemma {:induction false} UsableFramesAre(mm: seq<Region>, n: nat, p: nat)
    requires n <= |mm|
    ensures p in UsableFrames(mm, n) <==> exists i :: 0 <= i < n && mm[i].kind.Usable? && Inside(mm[i], p)
  {
    if n > 0 { UsableFramesAre(mm, n - 1, p); }
  }

  lemma RangeGrows(s: set<nat>, a: nat, b: nat)
    requires a <= b && b !in s
    ensures s + Range(a, b) + {b} == s + Range(a, b + 1) && b !in s + Range(a, b)
  {}

  lemma RangeShrinks(s: set<nat>, a: nat, b: nat)
    requires a <= b
    ensures s - Range(a, b) - {b} == s - Range(a, b + 1)
  {}

  lemma AlignedFrames(r: Region)
    requires r.base % PAGE == 0 && r.End() % PAGE == 0
    ensures FramesOf(r) == Range(r.base / PAGE, r.End() / PAGE)
    ensures AlignUp(r.base) == r.base / PAGE * PAGE
  {}

  lemma RegionsDisjoint(mm: seq<Region>, n: nat)
    requires GoodMap(mm) && n < |mm| && mm[n].kind.Usable?
    ensures FramesOf(mm[n]) !! UsableFrames(mm, n)
    ensures mm[n].base % PAGE == 0 && mm[n].End() % PAGE == 0 && mm[n].End() <= Highest(mm)
  {
    forall p | p in FramesOf(mm[n])
      ensures p !in UsableFrames(mm, n)
    {
      UsableFramesAre(mm, n, p);
    }
  }

  function AlignUp(addr: nat): (r: nat)
    ensures r % PAGE == 0 && addr <= r < addr + PAGE
  {
    (addr + PAGE - 1) / PAGE * PAGE
  }

  lemma NothingFree(bits: seq<bv8>, total: nat)
    requires forall i :: 0 <= i < |bits| ==> bits[i] == 0xFF
    ensures FreeIn(bits, total) == {} && ClearBits(bits, total) == 0
  {
    forall p
      ensures p !in FreeIn(bits, total)
    {
      if p >= 0 {
        FreeInAre(bits, total, p);
        BitChange(0, 0, BitIndex(p));
      }
    }
    ClearBitsCountFree(bits, total);
  }

  lemma OwnFramesFit(mm: seq<Region>, k: nat, size: nat)
    requires GoodMap(mm) && k < |mm| && Holds(mm[k], size)
    ensures mm[k].base / PAGE + (size + PAGE - 1) / PAGE <= Highest(mm) / PAGE
  {
    var r, n := mm[k], (size + PAGE - 1) / PAGE;
    assert n <= r.length / PAGE;
    assert r.base / PAGE + r.length / PAGE == r.End() / PAGE;
  }

  // ---- Runs of the allocator

  lemma FindLowest(s: set<nat>) returns (m: nat)
    requires s != {}
    ensures m in s && forall x :: x in s ==> m <= x
  {
    var y :| y in s;
    var rest := s - {y};
    assert s == rest + {y};
    if rest == {} {
      m := y;
    } else {
      var n := FindLowest(rest);
      m := if n <= y then n else y;
    }
  }

  lemma LowestExists(s: set<nat>)
    requires s != {}
    ensures exists m :: m in s && forall x :: x in s ==> m <= x
  {
    var m := FindLowest(s);
  }

  ghost function Lowest(s: set<nat>): (m: nat)
    requires s != {}
    ensures m in s && forall x :: x in s ==> m <= x
  {
    LowestExists(s);
    var m :| m in s && forall x :: x in s ==> m <= x;
    m
  }

  datatype PageOp = Take | Give(frame: nat)

  /** Which frames are free and which have been handed out. */
  datatype PageState = PageState(free: set<nat>, held: set<nat>)

  ghost function StepOn(s: PageState, op: PageOp): PageState {
    match op
    case Take =>
      if s.free == {} then s else PageState(s.free - {Lowest(s.free)}, s.held + {Lowest(s.free)})
    case Give(f) =>
      if f in s.held then PageState(s.free + {f}, s.held - {f}) else s
  }

  /** The addresses that the `Take`s of a run get; 0 where nothing is free. */
  ghost function Grants(s: PageState, ops: seq<PageOp>): seq<nat>
    decreases |ops|
  {
    if ops == [] then [] else
    (if ops[0] == Take then [if s.free == {} then 0 else Lowest(s.free) * PAGE] else []) + Grants(StepOn(s, ops[0]), ops[1..])
  }

  ghost function RunOn(s: PageState, ops: seq<PageOp>): PageState
    decreases |ops|
  {
    if ops == [] then s else RunOn(StepOn(s, ops[0]), ops[1..])
  }

  class PageAllocator {
    var bitmap: array?<bv8>
    var totalPages: nat
    var freePages: nat

    ghost predicate InBounds()
      reads this
    {
      bitmap != null && totalPages <= 8 * bitmap.Length
    }

    ghost function Free(): set<nat>
      requires InBounds()
      reads this, bitmap
    {
      FreeIn(bitmap[..], totalPages)
    }

    /** The cached count agrees with the bitmap. */
    ghost predicate Valid()
      reads this, bitmap
    {
      InBounds() && freePages == ClearBits(bitmap[..], totalPages)
    }

    constructor ()
      ensures bitmap == null
    {
      bitmap, totalPages, freePages := null, 0, 0;
    }

    method TestPage(page: nat) returns (used: bool)
      requires InBounds() && page / 8 < bitmap.Length
      ensures used == UsedIn(bitmap[..], page)
    {
      used := Bit(bitmap[page / 8], BitIndex(page));
    }

    method ClearPage(page: nat)
      requires InBounds() && page < totalPages
      modifies bitmap
      ensures Free() == old(Free()) + {page}
      ensures ClearBits(bitmap[..], totalPages) ==
        old(ClearBits(bitmap[..], totalPages)) + if page in old(Free()) then 0 else 1
    {
      FreeInAre(bitmap[..], totalPages, page);
      FreeAfterClear(bitmap[..], totalPages, page);
      bitmap[page / 8] := WithoutBit(bitmap[page / 8], BitIndex(page));
    }

    method SetPage(page: nat)
      requires InBounds() && page / 8 < bitmap.Length
      modifies bitmap
      ensures Free() == old(Free()) - {page}
      ensures ClearBits(bitmap[..], totalPages) ==
        old(ClearBits(bitmap[..], totalPages)) - if page in old(Free()) then 1 else 0
    {
      FreeInAre(bitmap[..], totalPages, page);
      FreeAfterSet(bitmap[..], totalPages, page);
      bitmap[page / 8] := WithBit(bitmap[page / 8], BitIndex(page));
    }

    /**
     * Builds the bitmap. Afterwards exactly the frames wholly inside usable regions are free, except
     * those the bitmap itself occupies. Without a usable region large enough there is no bitmap.
     */
    method Init(mm: seq<Region>)
      requires GoodMap(mm) && bitmap == null
      modifies this
      ensures totalPages == Highest(mm) / PAGE
      ensures var size := BitmapSize(totalPages);
        var k := Host(mm, size);
        && (bitmap == null <==> k == |mm|)
        && (bitmap != null ==>
             && fresh(bitmap) && bitmap.Length == size && Valid()
             && Free() == UsableFrames(mm, |mm|) - OwnFrames(mm[k], size))
    {
      var highest := HighestAddress(mm);
      totalPages := highest / PAGE;
      var size := BitmapSize(totalPages);
      var k := FindHost(mm, size);
      if k == |mm| { return; }
      bitmap := new bv8[size](_ => 0xFF);
      freePages := 0;
      NothingFree(bitmap[..], totalPages);
      FreeUsable(mm);
      OwnFramesFit(mm, k, size);
      ReservePages(mm[k].base / PAGE, (size + PAGE - 1) / PAGE);
    }

    /** Pass 1. */
    method HighestAddress(mm: seq<Region>) returns (highest: nat)
      ensures highest == Highest(mm)
    {
      highest := 0;
      for i := 0 to |mm|
        invariant highest == Highest(mm[..i])
      {
        assert mm[..i + 1][..i] == mm[..i];
        if mm[i].End() > highest { highest := mm[i].End(); }
      }
      assert mm[..|mm|] == mm;
    }

    /** Pass 2: the first usable region large enough. */
    method FindHost(mm: seq<Region>, size: nat) returns (k: nat)
      ensures k == Host(mm, size)
    {
      k := 0;
      while k < |mm| && !Holds(mm[k], size)
        invariant 0 <= k <= |mm| && forall i :: 0 <= i < k ==> !Holds(mm[i], size)
      {
        k := k + 1;
      }
    }

    /** Pass 3. */
    method FreeUsable(mm: seq<Region>)
      requires GoodMap(mm) && Valid() && Free() == {} && totalPages == Highest(mm) / PAGE
      modifies bitmap, `freePages
      ensures Valid() && Free() == UsableFrames(mm, |mm|)
    {
      for i := 0 to |mm|
        invariant Valid() && Free() == UsableFrames(mm, i)
      {
        if mm[i].kind.Usable? {
          RegionsDisjoint(mm, i);
          FreeRegion(mm[i]);
        }
      }
    }

    /** Pass 3 for one usable region. */
    method FreeRegion(r: Region)
      requires Valid() && r.base % PAGE == 0 && r.End() % PAGE == 0
      requires r.End() / PAGE <= totalPages && FramesOf(r) !! Free()
      modifies bitmap, `freePages
      ensures Valid() && Free() == old(Free()) + FramesOf(r)
    {
      ghost var before, lo: nat := Free(), r.base / PAGE;
      AlignedFrames(r);
      var addr: nat, end: nat := AlignUp(r.base), r.End() / PAGE * PAGE;
      ghost var page: nat := lo;
      while addr < end
        invariant addr == page * PAGE && lo <= page <= r.End() / PAGE
        invariant Valid() && Free() == before + Range(lo, page)
        decreases end - addr
      {
        RangeGrows(before, lo, page);
        FreeFrame(addr / PAGE);
        addr, page := addr + PAGE, page + 1;
      }
    }

    method FreeFrame(page: nat)
      requires Valid() && page < totalPages && page !in Free()
      modifies bitmap, `freePages
      ensures Valid() && Free() == old(Free()) + {page}
    {
      ClearPage(page);
      freePages := freePages + 1;
    }

    /** Pass 4: the bitmap's own frames. */
    method ReservePages(first: nat, count: nat)
      requires Valid() && first + count <= totalPages
      modifies bitmap, `freePages
      ensures Valid() && Free() == old(Free()) - Range(first, first + count)
    {
      ghost var before := Free();
      for p := 0 to count
        invariant Valid() && Free() == before - Range(first, first + p)
      {
        RangeShrinks(before, first, first + p);
        ReservePage(first + p);
      }
    }

    method ReservePage(page: nat)
      requires Valid() && page < totalPages
      modifies bitmap, `freePages
      ensures Valid() && Free() == old(Free()) - {page}
    {
      FreeInAre(bitmap[..], totalPages, page);
      var used := TestPage(page);
      if !used {
        SetPage(page);
        if freePages > 0 { freePages := freePages - 1; }
      }
    }

    /** The physical address of the lowest free frame, now in use; 0 when no frame is free. */
    method AllocPage() returns (phys: nat)
      requires Valid()
      modifies bitmap, `freePages
      ensures Valid()
      ensures old(Free()) == {} ==> phys == 0 && Free() == {}
      ensures old(Free()) != {} ==>
        && phys == Lowest(old(Free())) * PAGE && Lowest(old(Free())) < totalPages
        && Free() == old(Free()) - {Lowest(old(Free()))}
      ensures old(Free()) == {} <==> old(freePages) == 0
      ensures freePages == if old(Free()) == {} then 0 else old(freePages) - 1
    {
      hide ClearBits, FreeIn, UsedIn;
      ClearBitsCountFree(bitmap[..], totalPages);
      for i := 0 to totalPages
        invariant bitmap[..] == old(bitmap[..]) && freePages == old(freePages)
        invariant forall p :: p in Free() ==> i <= p
      {
        FreeInAre(bitmap[..], totalPages, i);
        var used := TestPage(i);
        if !used {
          SetPage(i);
          freePages := freePages - 1;
          return i * PAGE;
        }
      }
      FreeBelow(bitmap[..], totalPages);
      assert Free() == {};
      phys := 0;
    }

    /** Returns a frame. The count stays right exactly when the frame was in use. */
    method FreePage(phys: nat)
      requires Valid() && phys / PAGE < totalPages
      modifies bitmap, `freePages
      ensures InBounds() && Free() == old(Free()) + {phys / PAGE}
      ensures freePages == old(freePages) + 1
      ensures Valid() <==> phys / PAGE !in old(Free())
    {
      var page := phys / PAGE;
      ClearPage(page);
      freePages := freePages + 1;
    }

    /**
     * A client's run: it keeps the frames it gets, and gives back only those. Every request gets the lowest free
     * frame, or none when nothing is free, and in the end the bitmap is what the run makes of it.
     */
    method Run(ops: seq<PageOp>) returns (held: set<nat>, got: seq<nat>)
      requires Valid() && 0 !in Free()
      modifies bitmap, `freePages
      ensures Valid() && 0 !in Free()
      ensures PageState(Free(), held) == RunOn(PageState(old(Free()), {}), ops)
      ensures got == Grants(PageState(old(Free()), {}), ops)
    {
      hide FreeIn, ClearBits;
      ghost var s0 := PageState(Free(), {});
      held, got := {}, [];
      for i := 0 to |ops|
        invariant Valid() && held !! Free() && 0 !in Free() + held && forall f :: f in held ==> f < totalPages
        invariant RunOn(PageState(Free(), held), ops[i..]) == RunOn(s0, ops)
        invariant got + Grants(PageState(Free(), held), ops[i..]) == Grants(s0, ops)
      {
        ghost var s, free := PageState(Free(), held), Free();
        assert ops[i..][1..] == ops[i + 1..];
        match ops[i] {
          case Take =>
            var phys := AllocPage();
            if phys != 0 { held := held + {phys / PAGE}; }
            got := got + [phys];
          case Give(f) =>
            if f in held {
              FreePage(f * PAGE);
              held := held - {f};
            }
        }
        assert PageState(Free(), held) == StepOn(s, ops[i]);
      }
      assert ops[|ops|..] == [];
    }
  }

  // ---- What every run keeps

  /** Over every run no frame is free and held at once, none appears from nowhere and none is lost. */
  lemma {:induction false} RunConserves(s: PageState, ops: seq<PageOp>)
    requires s.free !! s.held
    ensures RunOn(s, ops).free !! RunOn(s, ops).held
    ensures RunOn(s, ops).free + RunOn(s, ops).held == s.free + s.held
    decreases |ops|
  {
    if ops != [] { RunConserves(StepOn(s, ops[0]), ops[1..]); }
  }

  lemma {:induction false} HeldUntilGiven(s: PageState, ops: seq<PageOp>, f: nat)
    requires s.free !! s.held && f in s.held && Give(f) !in ops
    ensures f in RunOn(s, ops).held && RunOn(s, ops).free !! RunOn(s, ops).held
    decreases |ops|
  {
    if ops != [] {
      assert Give(f) !in ops[1..];
      HeldUntilGiven(StepOn(s, ops[0]), ops[1..], f);
    }
  }

  /** A frame is not handed out a second time before it was given back. */
  lemma NotGrantedTwice(s: PageState, ops: seq<PageOp>)
    requires s.free !! s.held && s.free != {} && Give(Lowest(s.free)) !in ops
    ensures var s' := RunOn(StepOn(s, Take), ops); s'.free != {} ==> Lowest(s'.free) != Lowest(s.free)
  {
    HeldUntilGiven(StepOn(s, Take), ops, Lowest(s.free));
  }

  /** After initialisation no run ever hands out a frame with a byte of the bitmap in it. */
  lemma BitmapNeverHandedOut(mm: seq<Region>, size: nat, ops: seq<PageOp>, addr: nat)
    requires GoodMap(mm) && Host(mm, size) < |mm|
    requires mm[Host(mm, size)].base <= addr < mm[Host(mm, size)].base + size
    ensures var s := PageState(UsableFrames(mm, |mm|) - OwnFrames(mm[Host(mm, size)], size), {});
      addr / PAGE !in RunOn(s, ops).held + RunOn(s, ops).free
  {
    var host := mm[Host(mm, size)];
    var s := PageState(UsableFrames(mm, |mm|) - OwnFrames(host, size), {});
    RunConserves(s, ops);
    var first, n := host.base / PAGE, (size + PAGE - 1) / PAGE;
    assert addr / PAGE < first + n by {
      FrameWithin(host.base, size, addr);
    }
  }

  lemma FrameWithin(base: nat, size: nat, addr: nat)
    requires base <= addr < base + size && base % PAGE == 0
    ensures base / PAGE <= addr / PAGE < base / PAGE + (size + PAGE - 1) / PAGE
  {}
}
