/** Four-level page tables in raw memory, refining a partial map from virtual pages to frames. */
module PageTables {
  import opened Bytes
  import opened Options
  import opened Pmm

  type Word = x: nat | x < 0x1_0000_0000_0000_0000
  type Frame = s: seq<Word> | |s| == 512 witness seq(512, _ => 0)
  type Memory = seq<Frame>

  // ---- Entries and indices

  const PRESENT: nat := 1
  const WRITABLE: nat := 2
  const USER: nat := 4

  predicate Present(e: Word) { e % 2 == 1 }

  /** Bit `bit`, WRITABLE or USER, is set. */
  predicate Has(e: nat, bit: nat)
    requires bit > 0
  {
    e / bit % 2 == 1
  }

  /** The frame an entry points to: bits 12 to 51. */
  function EntryFrame(e: Word): nat { e / 4096 % 0x100_0000_0000 }

  /** `phys | flags` for a page-aligned address below 2^52 and flags outside bits 12 to 51. */
  predicate Joinable(phys: nat, flags: nat) {
    phys % PAGE == 0 && phys < 0x10_0000_0000_0000 && flags < 0x1_0000_0000_0000_0000 &&
    flags / 4096 % 0x100_0000_0000 == 0
  }

  function Entry(phys: nat, flags: nat): (e: Word)
    requires Joinable(phys, flags)
    ensures EntryFrame(e) == phys / PAGE && (Present(e) <==> flags % 2 == 1)
    ensures e % PAGE == flags % PAGE && e / 0x10_0000_0000_0000 == flags / 0x10_0000_0000_0000
  {
    JoinedFields(phys, flags);
    phys + flags
  }

  /** An entry is its low twelve bits, the frame's forty, and the twelve above. */
  lemma FieldsApart(f: nat, hi: nat, lo: nat)
    requires f < 0x100_0000_0000 && lo < 0x1000
    ensures var e := hi * 0x10_0000_0000_0000 + f * 0x1000 + lo;
      e / 0x1000 % 0x100_0000_0000 == f && e % 0x1000 == lo && e / 0x10_0000_0000_0000 == hi && e % 2 == lo % 2
  {
    var e := hi * 0x10_0000_0000_0000 + f * 0x1000 + lo;
    assert e / 0x1000 == hi * 0x100_0000_0000 + f;
    LowBitsOf(hi * 0x100_0000_0000 + f, lo);
  }

  lemma JoinedFields(phys: nat, flags: nat)
    requires Joinable(phys, flags)
    ensures var e := phys + flags;
      && e < 0x1_0000_0000_0000_0000 && EntryFrame(e) == phys / PAGE && e % 2 == flags % 2
      && e % PAGE == flags % PAGE && e / 0x10_0000_0000_0000 == flags / 0x10_0000_0000_0000
  {
    var f, hi, lo := phys / PAGE, flags / 0x10_0000_0000_0000, flags % PAGE;
    FlagFields(flags, hi, lo);
    FieldsApart(f, hi, lo);
    FieldsApart(0, hi, lo);
  }

  lemma FlagFields(flags: nat, hi: nat, lo: nat)
    requires flags / 4096 % 0x100_0000_0000 == 0 && hi == flags / 0x10_0000_0000_0000 && lo == flags % PAGE
    requires flags < 0x1_0000_0000_0000_0000
    ensures flags == hi * 0x10_0000_0000_0000 + lo && lo < 0x1000 && hi < 0x1000
  {}

  lemma LowBits(e: nat, flags: nat)
    requires e % PAGE == flags % PAGE
    ensures (Has(e, WRITABLE) <==> Has(flags, WRITABLE)) && (Has(e, USER) <==> Has(flags, USER)) && (e % 2 == flags % 2)
  {
    LowBitsOf(e / PAGE, e % PAGE);
    LowBitsOf(flags / PAGE, flags % PAGE);
  }

  lemma LowBitsOf(q: nat, r: nat)
    ensures (q * PAGE + r) / 2 % 2 == r / 2 % 2 && (q * PAGE + r) / 4 % 2 == r / 4 % 2 && (q * PAGE + r) % 2 == r % 2
  {
    Halved(2048 * q, r);
    Halved(1024 * q, r / 2);
    Quartered(1024 * q, r);
    Halved(512 * q, r / 4);
  }

  lemma Halved(a: nat, r: nat)
    ensures (2 * a + r) / 2 == a + r / 2 && (2 * a + r) % 2 == r % 2
  {}

  lemma Quartered(a: nat, r: nat)
    ensures (4 * a + r) / 4 == a + r / 4
  {}

  /** Virtual pages are numbered by address bits 12 to 47. */
  const PAGES: nat := 0x10_0000_0000

  function Vpn(virt: nat): (v: nat)
    ensures v < PAGES
  {
    virt / PAGE % PAGES
  }

  /** The page number without its lowest `l` nine-bit digits. */
  function Prefix(l: nat, v: nat): nat {
    if l == 0 then v else Prefix(l - 1, v) / 512
  }

  /** The index a page has in the table of level `l` on its path. */
  function Index(l: nat, v: nat): (i: nat)
    requires 1 <= l
    ensures i < 512
  {
    Prefix(l - 1, v) % 512
  }

  lemma PrefixSplits(l: nat, v: nat)
    requires 1 <= l
    ensures Prefix(l - 1, v) == Prefix(l, v) * 512 + Index(l, v)
  {}

  lemma PrefixEnds(v: nat)
    requires v < PAGES
    ensures Prefix(4, v) == 0
  {
    assert Prefix(4, v) == Prefix(3, v) / 512 && Prefix(3, v) == Prefix(2, v) / 512;
    assert Prefix(2, v) == Prefix(1, v) / 512 && Prefix(1, v) == Prefix(0, v) / 512;
  }

  lemma PrefixValues(v: nat)
    ensures Prefix(0, v) == v && Prefix(1, v) == v / 0x200
    ensures Prefix(2, v) == v / 0x4_0000
    ensures Prefix(3, v) == v / 0x800_0000
  {
    assert Prefix(3, v) == Prefix(2, v) / 512 && Prefix(2, v) == Prefix(1, v) / 512;
    assert Prefix(1, v) == Prefix(0, v) / 512;
  }

  lemma TopDigit(q: nat)
    ensures q % PAGES / 0x800_0000 % 512 == q / 0x800_0000 % 512
  {
    var k, r := q / PAGES, q % PAGES;
    assert q / 0x800_0000 == 512 * k + r / 0x800_0000;
  }

  lemma ThirdDigit(q: nat)
    ensures q % PAGES / 0x4_0000 % 512 == q / 0x4_0000 % 512
  {
    var k, r := q / PAGES, q % PAGES;
    assert q / 0x4_0000 == 0x4_0000 * k + r / 0x4_0000;
  }

  lemma SecondDigit(q: nat)
    ensures q % PAGES / 0x200 % 512 == q / 0x200 % 512
  {
    var k, r := q / PAGES, q % PAGES;
    assert q / 0x200 == 0x800_0000 * k + r / 0x200;
  }

  lemma LastDigit(q: nat)
    ensures q % PAGES % 512 == q % 512
  {
    var k, r := q / PAGES, q % PAGES;
    assert q == 512 * (0x800_0000 * k) + r;
  }

  lemma PagesOfAddress(virt: nat)
    ensures virt / 0x80_0000_0000 == virt / PAGE / 0x800_0000
    ensures virt / 0x4000_0000 == virt / PAGE / 0x4_0000
    ensures virt / 0x20_0000 == virt / PAGE / 0x200
  {}

  /** The indices are the address digits the four index macros pick. */
  lemma IndicesOfAddress(virt: nat)
    ensures virt / 0x80_0000_0000 % 512 == Index(4, Vpn(virt))
    ensures virt / 0x4000_0000 % 512 == Index(3, Vpn(virt))
    ensures virt / 0x20_0000 % 512 == Index(2, Vpn(virt))
    ensures virt / 0x1000 % 512 == Index(1, Vpn(virt))
  {
    hide Prefix;
    PagesOfAddress(virt);
    TopDigit(virt / PAGE);
    ThirdDigit(virt / PAGE);
    SecondDigit(virt / PAGE);
    LastDigit(virt / PAGE);
    PrefixValues(Vpn(virt));
  }

  // ---- Walking the tables

  /** What the entry `i` of a table points to, if the table is there and the entry is present. */
  ghost function Follow(mem: Memory, table: Option<nat>, i: nat): Option<nat>
    requires i < 512
  {
    match table
    case None => None
    case Some(t) => if t < |mem| && Present(mem[t][i]) then Some(EntryFrame(mem[t][i])) else None
  }

  /** The table of level `l` on the path of page `v`. */
  ghost function TableAt(mem: Memory, root: nat, l: nat, v: nat): Option<nat>
    requires 1 <= l <= 4
    decreases 4 - l
  {
    if l == 4 then Some(root) else Follow(mem, TableAt(mem, root, l + 1, v), Index(l + 1, v))
  }

  /** The frame page `v` is mapped to. */
  ghost function Lookup(mem: Memory, root: nat, v: nat): Option<nat> {
    Follow(mem, TableAt(mem, root, 1, v), Index(1, v))
  }

  /** The last-level entry of page `v`, if it is there and present. */
  ghost function Leaf(mem: Memory, root: nat, v: nat): Option<Word> {
    match TableAt(mem, root, 1, v)
    case None => None
    case Some(t) => if t < |mem| && Present(mem[t][Index(1, v)]) then Some(mem[t][Index(1, v)]) else None
  }

  /** The present entries that lead to the level-`l` table on the path of page `v` have this bit. */
  ghost predicate PathHas(mem: Memory, root: nat, l: nat, v: nat, bit: nat)
    requires 1 <= l <= 4 && bit > 0
    decreases 4 - l
  {
    l < 4 ==> PathHas(mem, root, l + 1, v, bit) && EntryHas(mem, TableAt(mem, root, l + 1, v), Index(l + 1, v), bit)
  }

  ghost predicate EntryHas(mem: Memory, table: Option<nat>, i: nat, bit: nat)
    requires i < 512 && bit > 0
  {
    table.Some? && table.value < |mem| && Present(mem[table.value][i]) ==> Has(mem[table.value][i], bit)
  }

  /** What a page is mapped to: its last-level entry, and whether the entries on all four levels allow writing and user access. */
  datatype Mapped = Mapped(entry: Word, writable: bool, user: bool)

  ghost function Page(mem: Memory, root: nat, v: nat): Option<Mapped> {
    match Leaf(mem, root, v)
    case None => None
    case Some(e) => Some(Mapped(e, Has(e, WRITABLE) && PathHas(mem, root, 1, v, WRITABLE), Has(e, USER) && PathHas(mem, root, 1, v, USER)))
  }

  /** The frame of a mapped page. */
  function FrameOf(m: Option<Mapped>): Option<nat> { if m.Some? then Some(EntryFrame(m.value.entry)) else None }

  lemma PageFrame(mem: Memory, root: nat, v: nat)
    ensures FrameOf(Page(mem, root, v)) == Lookup(mem, root, v)
  {}

  /** The physical address of a mapped virtual address, and 0 for an unmapped one. */
  ghost function Translate(mem: Memory, root: nat, virt: nat): nat {
    match Lookup(mem, root, Vpn(virt))
    case None => 0
    case Some(f) => f * PAGE + virt % PAGE
  }

  /** Pages `v` and `w` lie below one table of level `l`. */
  predicate Near(l: nat, v: nat, w: nat) { Prefix(l, v) == Prefix(l, w) }

  lemma NearStep(l: nat, v: nat, w: nat)
    requires 1 <= l <= 4 && v < PAGES && w < PAGES
    ensures Near(l - 1, v, w) <==> Near(l, v, w) && Index(l, v) == Index(l, w)
  {
    PrefixSplits(l, v);
    PrefixSplits(l, w);
  }

  lemma {:induction false} NearTablesEqual(mem: Memory, root: nat, l: nat, v: nat, w: nat)
    requires 1 <= l <= 4 && v < PAGES && w < PAGES && Near(l, v, w)
    ensures TableAt(mem, root, l, v) == TableAt(mem, root, l, w)
    decreases 4 - l
  {
    if l < 4 {
      NearStep(l + 1, v, w);
      NearTablesEqual(mem, root, l + 1, v, w);
    }
  }

  /** Pages below one last-level table have one path. */
  lemma {:induction false} NearPaths(mem: Memory, root: nat, l: nat, v: nat, w: nat, bit: nat)
    requires 1 <= l <= 4 && v < PAGES && w < PAGES && Near(l, v, w) && bit > 0
    ensures PathHas(mem, root, l, v, bit) <==> PathHas(mem, root, l, w, bit)
    decreases 4 - l
  {
    if l < 4 {
      NearStep(l + 1, v, w);
      NearTablesEqual(mem, root, l + 1, v, w);
      NearPaths(mem, root, l + 1, v, w, bit);
    }
  }

  // ---- The shape of the tables

  /** A table serves one level, and the pages whose number starts with one prefix. */
  datatype Label = Label(level: nat, prefix: nat)

  ghost predicate Tree(mem: Memory, root: nat, tables: map<nat, Label>) {
    && root in tables && tables[root] == Label(4, 0)
    && (forall t :: t in tables ==> 0 < t < |mem| && 1 <= tables[t].level <= 4)
    && (forall t, i: nat :: t in tables && i < 512 ==> Linked(mem, tables, t, i))
  }

  /** A present entry above the last level points to the one table for the pages below it, and allows writing. */
  ghost predicate Linked(mem: Memory, tables: map<nat, Label>, t: nat, i: nat)
    requires t in tables && i < 512
  {
    t < |mem| && tables[t].level > 1 && Present(mem[t][i]) ==>
      && EntryFrame(mem[t][i]) in tables
      && tables[EntryFrame(mem[t][i])] == Label(tables[t].level - 1, tables[t].prefix * 512 + i)
      && Has(mem[t][i], WRITABLE)
  }

  lemma {:induction false} TableLabel(mem: Memory, root: nat, tables: map<nat, Label>, l: nat, v: nat)
    requires Tree(mem, root, tables) && 1 <= l <= 4 && v < PAGES
    ensures TableAt(mem, root, l, v).Some? ==>
      var t := TableAt(mem, root, l, v).value;
      t in tables && tables[t] == Label(l, Prefix(l, v))
    decreases 4 - l
  {
    if l == 4 {
      PrefixEnds(v);
    } else {
      TableLabel(mem, root, tables, l + 1, v);
      PrefixSplits(l + 1, v);
      if TableAt(mem, root, l + 1, v).Some? {
        assert Linked(mem, tables, TableAt(mem, root, l + 1, v).value, Index(l + 1, v));
      }
    }
  }

  /** Whether a page may be written is left to its last-level entry. */
  lemma {:induction false} TablesAllowWriting(mem: Memory, root: nat, tables: map<nat, Label>, l: nat, v: nat)
    requires Tree(mem, root, tables) && 1 <= l <= 4 && v < PAGES
    ensures PathHas(mem, root, l, v, WRITABLE)
    decreases 4 - l
  {
    if l < 4 {
      TablesAllowWriting(mem, root, tables, l + 1, v);
      TableLabel(mem, root, tables, l + 1, v);
      if TableAt(mem, root, l + 1, v).Some? { assert Linked(mem, tables, TableAt(mem, root, l + 1, v).value, Index(l + 1, v)); }
    }
  }

  /** No table is shared: two entries that lead to one table are one entry. */
  lemma NoSharing(mem: Memory, root: nat, tables: map<nat, Label>, l: nat, v: nat, w: nat)
    requires Tree(mem, root, tables) && 1 <= l < 4 && v < PAGES && w < PAGES
    requires TableAt(mem, root, l, v).Some? && TableAt(mem, root, l, v) == TableAt(mem, root, l, w)
    ensures TableAt(mem, root, l + 1, v) == TableAt(mem, root, l + 1, w) && Index(l + 1, v) == Index(l + 1, w)
  {
    TableLabel(mem, root, tables, l, v);
    TableLabel(mem, root, tables, l, w);
    NearStep(l + 1, v, w);
    NearTablesEqual(mem, root, l + 1, v, w);
  }

  // ---- The two kinds of write

  function Poke(mem: Memory, t: nat, i: nat, e: Word): (mem': Memory)
    requires t < |mem| && i < 512
    ensures |mem'| == |mem|
  {
    mem[t := mem[t][i := e]]
  }

  lemma {:induction false} TableAtAfterLeaf(mem: Memory, root: nat, tables: map<nat, Label>, t: nat, i: nat, e: Word, l: nat, v: nat)
    requires Tree(mem, root, tables) && t in tables && tables[t].level == 1 && t < |mem| && i < 512
    requires 1 <= l <= 4 && v < PAGES
    ensures TableAt(Poke(mem, t, i, e), root, l, v) == TableAt(mem, root, l, v)
    decreases 4 - l
  {
    if l < 4 {
      TableAtAfterLeaf(mem, root, tables, t, i, e, l + 1, v);
      TableLabel(mem, root, tables, l + 1, v);
    }
  }

  lemma {:induction false} PathAfterLeaf(mem: Memory, root: nat, tables: map<nat, Label>, t: nat, i: nat, e: Word, l: nat, v: nat, bit: nat)
    requires Tree(mem, root, tables) && t in tables && tables[t].level == 1 && t < |mem| && i < 512
    requires 1 <= l <= 4 && v < PAGES && bit > 0
    ensures PathHas(Poke(mem, t, i, e), root, l, v, bit) <==> PathHas(mem, root, l, v, bit)
    decreases 4 - l
  {
    if l < 4 {
      PathAfterLeaf(mem, root, tables, t, i, e, l + 1, v, bit);
      TableAtAfterLeaf(mem, root, tables, t, i, e, l + 1, v);
      TableLabel(mem, root, tables, l + 1, v);
    }
  }

  /** What a page with last-level entry `e` is mapped to, when its path is that of page `v`. */
  ghost function MappedBy(mem: Memory, root: nat, v: nat, e: Word): Option<Mapped> {
    if !Present(e) then None else
    Some(Mapped(e, Has(e, WRITABLE) && PathHas(mem, root, 1, v, WRITABLE), Has(e, USER) && PathHas(mem, root, 1, v, USER)))
  }

  /** Writing the last-level entry of page `v0` changes the mapping of that page alone. */
  lemma LeafWritten(mem: Memory, root: nat, tables: map<nat, Label>, v0: nat, e: Word, v: nat)
    requires Tree(mem, root, tables) && v0 < PAGES && v < PAGES && TableAt(mem, root, 1, v0).Some?
    ensures var t := TableAt(mem, root, 1, v0).value;
      t < |mem| && Page(Poke(mem, t, Index(1, v0), e), root, v) == if v != v0 then Page(mem, root, v) else MappedBy(mem, root, v, e)
  {
    hide PathHas, Has, TableAt, Tree, Index;
    var t := TableAt(mem, root, 1, v0).value;
    LeafTable(mem, root, tables, v0);
    TableLabel(mem, root, tables, 1, v0);
    TableLabel(mem, root, tables, 1, v);
    TableAtAfterLeaf(mem, root, tables, t, Index(1, v0), e, 1, v);
    PathAfterLeaf(mem, root, tables, t, Index(1, v0), e, 1, v, WRITABLE);
    PathAfterLeaf(mem, root, tables, t, Index(1, v0), e, 1, v, USER);
    NearStep(1, v, v0);
  }

  /** Page `v0` is mapped to `to`, and every other page as before. */
  ghost predicate Remapped(mem: Memory, mem': Memory, root: nat, v0: nat, to: Option<Mapped>) {
    forall v: nat :: v < PAGES ==> Page(mem', root, v) == if v == v0 then to else Page(mem, root, v)
  }

  /** Page `v` has no last-level table; so it is not mapped. */
  ghost predicate NoTable(mem: Memory, root: nat, v: nat) { TableAt(mem, root, 1, v) == None }

  ghost predicate StillNoTable(mem: Memory, mem': Memory, root: nat) {
    forall v: nat {:trigger NoTable(mem', root, v)} :: v < PAGES && NoTable(mem, root, v) ==> NoTable(mem', root, v)
  }

  lemma LeafRemaps(mem: Memory, root: nat, tables: map<nat, Label>, v0: nat, e: Word)
    requires Tree(mem, root, tables) && v0 < PAGES && TableAt(mem, root, 1, v0).Some?
    ensures var t := TableAt(mem, root, 1, v0).value;
      t < |mem| && Remapped(mem, Poke(mem, t, Index(1, v0), e), root, v0, MappedBy(mem, root, v0, e))
      && StillNoTable(mem, Poke(mem, t, Index(1, v0), e), root)
  {
    var t := TableAt(mem, root, 1, v0).value;
    TableLabel(mem, root, tables, 1, v0);
    forall v: nat | v < PAGES
      ensures Page(Poke(mem, t, Index(1, v0), e), root, v) == if v == v0 then MappedBy(mem, root, v0, e) else Page(mem, root, v)
      ensures NoTable(mem, root, v) ==> NoTable(Poke(mem, t, Index(1, v0), e), root, v)
    {
      LeafWritten(mem, root, tables, v0, e, v);
      TableAtAfterLeaf(mem, root, tables, t, Index(1, v0), e, 1, v);
    }
  }

  lemma LeafKeepsTree(mem: Memory, root: nat, tables: map<nat, Label>, t: nat, i: nat, e: Word)
    requires Tree(mem, root, tables) && t in tables && tables[t].level == 1 && t < |mem| && i < 512
    ensures Tree(Poke(mem, t, i, e), root, tables)
  {
    forall u, j: nat | u in tables && j < 512
      ensures Linked(Poke(mem, t, i, e), tables, u, j)
    {
      assert Linked(mem, tables, u, j);
    }
  }

  function EmptyFrame(): (f: Frame)
    ensures forall i :: 0 <= i < 512 ==> f[i] == 0
  {
    seq(512, _ => 0)
  }

  /** `t` is the level-`l` table of page `v0`, its entry for `v0` is absent, and `f` is an unused frame for a table. */
  ghost predicate CanHang(mem: Memory, root: nat, tables: map<nat, Label>, l: nat, v0: nat, t: nat, f: nat, e: Word) {
    && Tree(mem, root, tables) && 2 <= l <= 4 && v0 < PAGES
    && TableAt(mem, root, l, v0) == Some(t) && t < |mem|
    && !Present(mem[t][Index(l, v0)])
    && 0 < f < |mem| && f !in tables && Present(e) && EntryFrame(e) == f && Has(e, WRITABLE)
  }

  /** The memory once the zeroed frame hangs under that entry. */
  function Hang(mem: Memory, t: nat, i: nat, f: nat, e: Word): (mem': Memory)
    requires t < |mem| && f < |mem| && i < 512
    ensures |mem'| == |mem|
  {
    Poke(mem[f := EmptyFrame()], t, i, e)
  }

  lemma FollowAfterHang(mem: Memory, t: nat, i0: nat, f: nat, e: Word, o: Option<nat>, i: nat)
    requires t < |mem| && f < |mem| && t != f && i0 < 512 && i < 512 && Present(e) && EntryFrame(e) == f
    ensures Follow(Hang(mem, t, i0, f, e), o, i) ==
      if o == Some(f) then None else if o == Some(t) && i == i0 then Some(f) else Follow(mem, o, i)
  {}

  lemma {:induction false} TableAtAfterHang(mem: Memory, root: nat, tables: map<nat, Label>, l: nat, v0: nat, t: nat, f: nat,
                                            e: Word, k: nat, v: nat)
    requires CanHang(mem, root, tables, l, v0, t, f, e) && 1 <= k <= 4 && v < PAGES
    ensures TableAt(Hang(mem, t, Index(l, v0), f, e), root, k, v) ==
      if k == l - 1 && Near(k, v, v0) then Some(f) else TableAt(mem, root, k, v)
    ensures k < l && Near(l - 1, v, v0) ==> TableAt(mem, root, k, v) == None
    decreases 4 - k
  {
    hide Tree, Index, Prefix, Hang, Poke;
    if k < 4 {
      TableAtAfterHang(mem, root, tables, l, v0, t, f, e, k + 1, v);
      TableLabel(mem, root, tables, k + 1, v);
      TableLabel(mem, root, tables, l, v0);
      NearStep(k + 1, v, v0);
      FollowAfterHang(mem, t, Index(l, v0), f, e, TableAt(Hang(mem, t, Index(l, v0), f, e), root, k + 1, v), Index(k + 1, v));
      if k + 1 == l && Near(l, v, v0) { NearTablesEqual(mem, root, l, v, v0); }
    }
  }

  lemma EntryAfterHang(mem: Memory, t: nat, i0: nat, f: nat, e: Word, o: Option<nat>, i: nat, bit: nat)
    requires t < |mem| && f < |mem| && t != f && i0 < 512 && i < 512 && Present(e) && bit > 0
    ensures EntryHas(Hang(mem, t, i0, f, e), o, i, bit) <==>
      if o == Some(f) then true else if o == Some(t) && i == i0 then Has(e, bit) else EntryHas(mem, o, i, bit)
  {}

  /** The new entry is on the paths of the pages near `v0`. */
  lemma {:induction false} PathAfterHang(mem: Memory, root: nat, tables: map<nat, Label>, l: nat, v0: nat, t: nat, f: nat,
                                         e: Word, k: nat, v: nat, bit: nat)
    requires CanHang(mem, root, tables, l, v0, t, f, e) && 1 <= k <= 4 && v < PAGES && bit > 0
    ensures PathHas(Hang(mem, t, Index(l, v0), f, e), root, k, v, bit) <==>
      PathHas(mem, root, k, v, bit) && (k < l && Near(l - 1, v, v0) ==> Has(e, bit))
    decreases 4 - k
  {
    hide Tree, Index, TableAt, Has, Present, EntryFrame;
    if k < 4 {
      PathAfterHang(mem, root, tables, l, v0, t, f, e, k + 1, v, bit);
      TableAtAfterHang(mem, root, tables, l, v0, t, f, e, k + 1, v);
      TableLabel(mem, root, tables, k + 1, v);
      TableLabel(mem, root, tables, l, v0);
      NearStep(k + 1, v, v0);
      EntryAfterHang(mem, t, Index(l, v0), f, e, TableAt(Hang(mem, t, Index(l, v0), f, e), root, k + 1, v), Index(k + 1, v), bit);
      if k + 1 == l && Near(l, v, v0) { NearTablesEqual(mem, root, l, v, v0); }
    }
  }

  lemma HangKeepsTree(mem: Memory, root: nat, tables: map<nat, Label>, l: nat, v0: nat, t: nat, f: nat, e: Word)
    requires CanHang(mem, root, tables, l, v0, t, f, e)
    ensures Tree(Hang(mem, t, Index(l, v0), f, e), root, tables[f := Label(l - 1, Prefix(l - 1, v0))])
  {
    var mem', tables' := Hang(mem, t, Index(l, v0), f, e), tables[f := Label(l - 1, Prefix(l - 1, v0))];
    TableLabel(mem, root, tables, l, v0);
    PrefixSplits(l, v0);
    forall u, j: nat | u in tables' && j < 512
      ensures Linked(mem', tables', u, j)
    {
      if u != f { assert Linked(mem, tables, u, j); }
    }
  }

  /** Adding a table leaves every page mapped as it was, and the new table is where page `v0` needs it. */
  lemma HangKeepsLookup(mem: Memory, root: nat, tables: map<nat, Label>, l: nat, v0: nat, t: nat, f: nat, e: Word, v: nat)
    requires CanHang(mem, root, tables, l, v0, t, f, e) && v < PAGES
    ensures Page(Hang(mem, t, Index(l, v0), f, e), root, v) == Page(mem, root, v)
    ensures TableAt(Hang(mem, t, Index(l, v0), f, e), root, l - 1, v0) == Some(f)
  {
    hide PathHas, Has, Tree, TableAt, Index, Prefix;
    PathAfterHang(mem, root, tables, l, v0, t, f, e, 1, v, WRITABLE);
    PathAfterHang(mem, root, tables, l, v0, t, f, e, 1, v, USER);
    TableAtAfterHang(mem, root, tables, l, v0, t, f, e, l - 1, v0);
    TableAtAfterHang(mem, root, tables, l, v0, t, f, e, 1, v);
    TableLabel(mem, root, tables, 1, v);
    TableLabel(mem, root, tables, l, v0);
    FollowAfterHang(mem, t, Index(l, v0), f, e, TableAt(Hang(mem, t, Index(l, v0), f, e), root, 1, v), Index(1, v));
    if l == 2 && Near(1, v, v0) { assert TableAt(mem, root, 1, v) == None; }
  }

  /** Every page is mapped alike in both memories. */
  ghost predicate SameMapping(m1: Memory, m2: Memory, root: nat) {
    forall v: nat :: v < PAGES ==> Page(m1, root, v) == Page(m2, root, v)
  }

  lemma SameMappingTrans(m1: Memory, m2: Memory, m3: Memory, root: nat)
    requires SameMapping(m1, m2, root) && SameMapping(m2, m3, root)
    ensures SameMapping(m1, m3, root)
  {}

  lemma NothingRemapped(m1: Memory, m2: Memory, root: nat, v: nat)
    ensures SameMapping(m1, m1, root)
    ensures SameMapping(m1, m2, root) ==> Remapped(m1, m2, root, v, Page(m1, root, v))
    ensures StillNoTable(m1, m1, root)
  {}

  lemma RemappedFrom(m1: Memory, m2: Memory, m3: Memory, root: nat, v: nat, to: Option<Mapped>)
    requires SameMapping(m1, m2, root) && Remapped(m2, m3, root, v, to)
    ensures Remapped(m1, m3, root, v, to)
  {}

  /** The path starts at the top table, and ends where a table is missing. */
  lemma Path(mem: Memory, root: nat, v: nat)
    ensures TableAt(mem, root, 4, v) == Some(root)
    ensures TableAt(mem, root, 3, v) == None ==> TableAt(mem, root, 2, v) == None
    ensures TableAt(mem, root, 2, v) == None ==> TableAt(mem, root, 1, v) == None
  {}

  lemma LeafTable(mem: Memory, root: nat, tables: map<nat, Label>, v: nat)
    requires Tree(mem, root, tables) && v < PAGES && TableAt(mem, root, 1, v).Some?
    ensures var t := TableAt(mem, root, 1, v).value; t < |mem| && t in tables && tables[t].level == 1
  {
    TableLabel(mem, root, tables, 1, v);
  }

  /** The tables on the path of page `v` that do not exist yet. */
  ghost function Missing(mem: Memory, root: nat, v: nat): nat {
    if TableAt(mem, root, 1, v).Some? then 0 else if TableAt(mem, root, 2, v).Some? then 1
    else if TableAt(mem, root, 3, v).Some? then 2 else 3
  }

  // ---- The two windows set up at boot

  /** How many pages page `v` lies after page `from`, going round. */
  function After(v: nat, from: nat): (d: nat)
    ensures d < PAGES
  {
    (v - from) % PAGES
  }

  lemma PageOf(q: nat)
    ensures Vpn(q * PAGE % TWO64) == q % PAGES
  {
    var k, r := q / 0x10_0000_0000_0000, q % 0x10_0000_0000_0000;
    assert q * PAGE == TWO64 * k + r * PAGE;
    assert q * PAGE % TWO64 == r * PAGE;
  }

  lemma AfterIs(v: nat, b: nat, d: nat)
    requires v < PAGES && d < PAGES
    ensures (d + b) % PAGES == v <==> After(v, b) == d
  {}

  /** Page `d` after that of `base` is the page of the address `d` pages on. */
  lemma PageAfter(v: nat, base: nat, d: nat)
    requires v < PAGES && d < PAGES && base % PAGE == 0
    ensures Vpn((d * PAGE + base) % TWO64) == v <==> After(v, base / PAGE) == d
  {
    assert d * PAGE + base == (d + base / PAGE) * PAGE;
    PageOf(d + base / PAGE);
    AfterIs(v, base / PAGE, d);
  }

  /** Frame `p` is touched by the region. */
  predicate Touches(r: Region, p: nat) { r.base / PAGE <= p < AlignUp(r.End()) / PAGE }

  /** Frame `p` is touched by one of the first `n` regions. */
  predicate Covered(mm: seq<Region>, n: nat, p: nat)
    requires n <= |mm|
  {
    n > 0 && (Covered(mm, n - 1, p) || Touches(mm[n - 1], p))
  }

  lemma {:induction false} CoveredIff(mm: seq<Region>, n: nat, p: nat)
    requires n <= |mm|
    ensures Covered(mm, n, p) <==> exists i :: 0 <= i < n && Touches(mm[i], p)
  {
    if n > 0 { CoveredIff(mm, n - 1, p); }
  }

  /** The big window once the first `n` regions and the frames from `lo` to `hi` are mapped. */
  function WindowMapping(mm: seq<Region>, hhdm: nat, n: nat, lo: nat, hi: nat, v: nat): Option<nat>
    requires n <= |mm|
  {
    var d := After(v, hhdm / PAGE);
    if Covered(mm, n, d) || lo <= d < hi then Some(d) else None
  }

  const KERNEL_PAGES: nat := 0x4000

  /** Where boot maps page `v`: the 64 MB kernel window first, else the window over all of the memory map. */
  function BootMapping(mm: seq<Region>, hhdm: nat, kphys: nat, kvirt: nat, v: nat): Option<nat> {
    KernelMapping(mm, hhdm, kphys, kvirt, KERNEL_PAGES, v)
  }

  function KernelMapping(mm: seq<Region>, hhdm: nat, kphys: nat, kvirt: nat, n: nat, v: nat): Option<nat> {
    if After(v, kvirt / PAGE) < n then Some(kphys / PAGE + After(v, kvirt / PAGE))
    else WindowMapping(mm, hhdm, |mm|, 0, 0, v)
  }

  /** A page mapped to frame `f` as kernel data: it may be written, and not by the user; or not mapped, if there is no `f`. */
  ghost predicate IsData(m: Option<Mapped>, f: Option<nat>) {
    match m
    case None => f == None
    case Some(p) => f == Some(EntryFrame(p.entry)) && p.entry % PAGE == PRESENT + WRITABLE && p.writable && !p.user
  }

  ghost predicate WindowDone(mem: Memory, root: nat, mm: seq<Region>, hhdm: nat, n: nat, lo: nat, hi: nat) {
    n <= |mm| && forall v: nat :: v < PAGES ==> IsData(Page(mem, root, v), WindowMapping(mm, hhdm, n, lo, hi, v))
  }

  ghost predicate KernelDone(mem: Memory, root: nat, mm: seq<Region>, hhdm: nat, kphys: nat, kvirt: nat, k: nat) {
    forall v: nat :: v < PAGES ==> IsData(Page(mem, root, v), KernelMapping(mm, hhdm, kphys, kvirt, k, v))
  }

  /** Every page is mapped as boot is meant to map it, as kernel data. */
  ghost predicate BootDone(mem: Memory, root: nat, mm: seq<Region>, hhdm: nat, kphys: nat, kvirt: nat) {
    forall v: nat :: v < PAGES ==> IsData(Page(mem, root, v), BootMapping(mm, hhdm, kphys, kvirt, v))
  }

  /** From page `start / PAGE` on `frames` are mapped in order as kernel data, and every other page is mapped as in `mem`. */
  ghost predicate HeapDone(mem: Memory, mem': Memory, root: nat, start: nat, frames: seq<nat>) {
    forall v: nat :: v < PAGES ==>
      var d := After(v, start / PAGE);
      if d < |frames| then IsData(Page(mem', root, v), Some(frames[d])) else Page(mem', root, v) == Page(mem, root, v)
  }

  /** A page that boot is meant to map has no table. */
  ghost predicate BootShort(mem: Memory, root: nat, mm: seq<Region>, hhdm: nat, kphys: nat, kvirt: nat) {
    exists v: nat :: v < PAGES && NoTable(mem, root, v) && BootMapping(mm, hhdm, kphys, kvirt, v).Some?
  }

  /** One of the heap's first `n` pages has no table. */
  ghost predicate HeapShort(mem: Memory, root: nat, start: nat, n: nat) {
    exists v: nat :: v < PAGES && NoTable(mem, root, v) && After(v, start / PAGE) < n
  }

  lemma WindowStep(mem: Memory, mem': Memory, root: nat, mm: seq<Region>, hhdm: nat, n: nat, lo: nat, f: nat, to: Option<Mapped>)
    requires WindowDone(mem, root, mm, hhdm, n, lo, f) && lo <= f < PAGES && hhdm % PAGE == 0
    requires IsData(to, Some(f)) && Remapped(mem, mem', root, Vpn((f * PAGE + hhdm) % TWO64), to)
    ensures WindowDone(mem', root, mm, hhdm, n, lo, f + 1)
  {
    hide Page, IsData, Vpn, After, Covered;
    forall v: nat | v < PAGES
      ensures IsData(Page(mem', root, v), WindowMapping(mm, hhdm, n, lo, f + 1, v))
    {
      PageAfter(v, hhdm, f);
    }
  }

  lemma WindowNext(mem: Memory, root: nat, mm: seq<Region>, hhdm: nat, n: nat, f: nat)
    requires n < |mm|
    requires var lo, hi := mm[n].base / PAGE, AlignUp(mm[n].End()) / PAGE;
      WindowDone(mem, root, mm, hhdm, n, lo, f) && (f == hi || (f == lo && hi <= lo))
    ensures WindowDone(mem, root, mm, hhdm, n + 1, 0, 0)
  {}

  lemma WindowStarts(mem: Memory, root: nat, mm: seq<Region>, hhdm: nat, n: nat, lo: nat)
    requires WindowDone(mem, root, mm, hhdm, n, 0, 0)
    ensures WindowDone(mem, root, mm, hhdm, n, lo, lo)
  {}

  lemma KernelStep(mem: Memory, mem': Memory, root: nat, mm: seq<Region>, hhdm: nat, kphys: nat, kvirt: nat, k: nat, to: Option<Mapped>)
    requires KernelDone(mem, root, mm, hhdm, kphys, kvirt, k) && k < PAGES && kvirt % PAGE == 0
    requires IsData(to, Some(kphys / PAGE + k)) && Remapped(mem, mem', root, Vpn((k * PAGE + kvirt) % TWO64), to)
    ensures KernelDone(mem', root, mm, hhdm, kphys, kvirt, k + 1)
  {
    hide Page, IsData, Vpn, After;
    forall v: nat | v < PAGES
      ensures IsData(Page(mem', root, v), KernelMapping(mm, hhdm, kphys, kvirt, k + 1, v))
    {
      PageAfter(v, kvirt, k);
    }
  }

  lemma HeapStep(mem: Memory, mem1: Memory, mem': Memory, root: nat, start: nat, frames: seq<nat>, f: nat, to: Option<Mapped>)
    requires HeapDone(mem, mem1, root, start, frames) && |frames| < PAGES && start % PAGE == 0
    requires IsData(to, Some(f)) && Remapped(mem1, mem', root, Vpn((|frames| * PAGE + start) % TWO64), to)
    ensures HeapDone(mem, mem', root, start, frames + [f])
  {
    hide Page, IsData, Vpn, After;
    forall v: nat | v < PAGES
      ensures var d := After(v, start / PAGE);
        if d < |frames + [f]| then IsData(Page(mem', root, v), Some((frames + [f])[d])) else Page(mem', root, v) == Page(mem, root, v)
    {
      PageAfter(v, start, |frames|);
    }
  }

  lemma ShortStays(mem: Memory, mem': Memory, root: nat, mm: seq<Region>, hhdm: nat, kphys: nat, kvirt: nat)
    requires BootShort(mem, root, mm, hhdm, kphys, kvirt) && StillNoTable(mem, mem', root)
    ensures BootShort(mem', root, mm, hhdm, kphys, kvirt)
  {
    var v: nat :| v < PAGES && NoTable(mem, root, v) && BootMapping(mm, hhdm, kphys, kvirt, v).Some?;
    assert NoTable(mem', root, v);
  }

  lemma ShortInWindow(mem: Memory, root: nat, mm: seq<Region>, hhdm: nat, kphys: nat, kvirt: nat, n: nat, f: nat)
    requires n < |mm| && Touches(mm[n], f) && f < PAGES && hhdm % PAGE == 0
    requires NoTable(mem, root, Vpn((f * PAGE + hhdm) % TWO64))
    ensures BootShort(mem, root, mm, hhdm, kphys, kvirt)
  {
    CoveredIff(mm, |mm|, f);
    PageAfter(Vpn((f * PAGE + hhdm) % TWO64), hhdm, f);
  }

  lemma ShortInKernel(mem: Memory, root: nat, mm: seq<Region>, hhdm: nat, kphys: nat, kvirt: nat, k: nat)
    requires k < KERNEL_PAGES && kvirt % PAGE == 0 && NoTable(mem, root, Vpn((k * PAGE + kvirt) % TWO64))
    ensures BootShort(mem, root, mm, hhdm, kphys, kvirt)
  {
    PageAfter(Vpn((k * PAGE + kvirt) % TWO64), kvirt, k);
  }

  lemma ShortIsNotDone(mem: Memory, root: nat, mm: seq<Region>, hhdm: nat, kphys: nat, kvirt: nat)
    requires BootShort(mem, root, mm, hhdm, kphys, kvirt)
    ensures !BootDone(mem, root, mm, hhdm, kphys, kvirt)
  {
    var v: nat :| v < PAGES && NoTable(mem, root, v) && BootMapping(mm, hhdm, kphys, kvirt, v).Some?;
    assert Page(mem, root, v) == None;
  }

  lemma NothingMapped(mem: Memory, root: nat, mm: seq<Region>, hhdm: nat)
    requires forall v :: Page(mem, root, v) == None
    ensures WindowDone(mem, root, mm, hhdm, 0, 0, 0)
  {}

  lemma NothingMappedYet(mem: Memory, root: nat, start: nat)
    ensures HeapDone(mem, mem, root, start, [])
  {}

  lemma KernelStarts(mem: Memory, root: nat, mm: seq<Region>, hhdm: nat, kphys: nat, kvirt: nat)
    requires WindowDone(mem, root, mm, hhdm, |mm|, 0, 0)
    ensures KernelDone(mem, root, mm, hhdm, kphys, kvirt, 0)
  {}

  lemma KernelEnds(mem: Memory, root: nat, mm: seq<Region>, hhdm: nat, kphys: nat, kvirt: nat)
    requires KernelDone(mem, root, mm, hhdm, kphys, kvirt, KERNEL_PAGES)
    ensures BootDone(mem, root, mm, hhdm, kphys, kvirt)
  {}

  lemma HeapShortHere(mem: Memory, root: nat, start: nat, k: nat)
    requires k < PAGES && start % PAGE == 0 && NoTable(mem, root, Vpn((k * PAGE + start) % TWO64))
    ensures HeapShort(mem, root, start, k + 1)
  {
    PageAfter(Vpn((k * PAGE + start) % TWO64), start, k);
  }

  lemma HeapShortIsNotDone(mem: Memory, mem': Memory, root: nat, start: nat, frames: seq<nat>)
    requires HeapShort(mem', root, start, |frames|)
    ensures !HeapDone(mem, mem', root, start, frames)
  {
    var v: nat :| v < PAGES && NoTable(mem', root, v) && After(v, start / PAGE) < |frames|;
    assert Page(mem', root, v) == None;
  }

  // ---- What the boot mapping means for addresses

  /** The page of the byte at `base + off`, in 64 bits. */
  function PageAt(base: nat, off: nat): (v: nat)
    ensures v < PAGES
  {
    Vpn((base + off) % TWO64)
  }

  /** Page `v` belongs to the kernel's 64 MB. */
  ghost predicate InKernelWindow(kvirt: nat, v: nat) {
    exists off: nat :: off < KERNEL_PAGES * PAGE && PageAt(kvirt, off) == v
  }

  lemma OffsetPage(base: nat, off: nat)
    requires base % PAGE == 0
    ensures PageAt(base, off) == Vpn((off / PAGE * PAGE + base) % TWO64)
    ensures (base + off) % TWO64 % PAGE == off % PAGE
  {
    var q, r := base / PAGE + off / PAGE, off % PAGE;
    var k, m := q / 0x10_0000_0000_0000, q % 0x10_0000_0000_0000;
    assert base + off == TWO64 * k + (m * PAGE + r);
    assert (base + off) % TWO64 == m * PAGE + r;
    assert (off / PAGE * PAGE + base) % TWO64 == m * PAGE;
  }

  /** Byte `off` of a window lies as many pages on as `off` says. */
  lemma PageAtIs(base: nat, off: nat)
    requires base % PAGE == 0 && off < PAGES * PAGE
    ensures After(PageAt(base, off), base / PAGE) == off / PAGE
  {
    OffsetPage(base, off);
    PageAfter(PageAt(base, off), base, off / PAGE);
  }

  lemma KernelWindowIff(kvirt: nat, v: nat)
    requires kvirt % PAGE == 0 && v < PAGES
    ensures InKernelWindow(kvirt, v) <==> After(v, kvirt / PAGE) < KERNEL_PAGES
  {
    hide After, PageAt;
    if InKernelWindow(kvirt, v) {
      var off: nat :| off < KERNEL_PAGES * PAGE && PageAt(kvirt, off) == v;
      PageAtIs(kvirt, off);
    }
    if After(v, kvirt / PAGE) < KERNEL_PAGES { WindowHas(kvirt, v, After(v, kvirt / PAGE)); }
  }

  lemma WindowHas(kvirt: nat, v: nat, d: nat)
    requires kvirt % PAGE == 0 && v < PAGES && After(v, kvirt / PAGE) == d < KERNEL_PAGES
    ensures InKernelWindow(kvirt, v)
  {
    var off := d * PAGE;
    PageAfter(v, kvirt, d);
    assert PageAt(kvirt, off) == v;
  }

  /** Every byte of the kernel's 64 MB lies where boot put it. */
  lemma KernelTranslates(mem: Memory, root: nat, mm: seq<Region>, hhdm: nat, kphys: nat, kvirt: nat, off: nat)
    requires BootDone(mem, root, mm, hhdm, kphys, kvirt) && kphys % PAGE == 0 && kvirt % PAGE == 0 && off < KERNEL_PAGES * PAGE
    ensures Translate(mem, root, (kvirt + off) % TWO64) == kphys + off
  {
    OffsetPage(kvirt, off);
    PageAtIs(kvirt, off);
    PageFrame(mem, root, PageAt(kvirt, off));
  }

  /** Every byte that shares a frame with some region is found at its offset in the big window, kernel pages aside. */
  lemma WindowTranslates(mem: Memory, root: nat, mm: seq<Region>, hhdm: nat, kphys: nat, kvirt: nat, i: nat, phys: nat)
    requires BootDone(mem, root, mm, hhdm, kphys, kvirt) && hhdm % PAGE == 0 && kvirt % PAGE == 0
    requires i < |mm| && Touches(mm[i], phys / PAGE) && phys < PAGES * PAGE
    requires !InKernelWindow(kvirt, PageAt(hhdm, phys))
    ensures Translate(mem, root, (hhdm + phys) % TWO64) == phys
  {
    OffsetPage(hhdm, phys);
    PageAtIs(hhdm, phys);
    CoveredIff(mm, |mm|, phys / PAGE);
    KernelWindowIff(kvirt, PageAt(hhdm, phys));
    PageFrame(mem, root, PageAt(hhdm, phys));
  }

  /** Boot maps all its pages for the kernel to read and write, and none for the user. */
  lemma BootIsKernelData(mem: Memory, root: nat, mm: seq<Region>, hhdm: nat, kphys: nat, kvirt: nat, v: nat)
    requires BootDone(mem, root, mm, hhdm, kphys, kvirt) && v < PAGES && Lookup(mem, root, v).Some?
    ensures Page(mem, root, v).Some? && Page(mem, root, v).value.writable && !Page(mem, root, v).value.user
  {
    hide Page, BootMapping;
    PageFrame(mem, root, v);
  }

  /** Boot maps nothing else. */
  lemma NothingElseMapped(mem: Memory, root: nat, mm: seq<Region>, hhdm: nat, kphys: nat, kvirt: nat, v: nat)
    requires BootDone(mem, root, mm, hhdm, kphys, kvirt) && hhdm % PAGE == 0 && kvirt % PAGE == 0 && v < PAGES
    requires !InKernelWindow(kvirt, v)
    requires forall i, d: nat :: 0 <= i < |mm| && d < PAGES && Touches(mm[i], d) ==> PageAt(hhdm, d * PAGE) != v
    ensures Lookup(mem, root, v) == None
  {
    var d := After(v, hhdm / PAGE);
    PageFrame(mem, root, v);
    KernelWindowIff(kvirt, v);
    CoveredIff(mm, |mm|, d);
    PageAfter(v, hhdm, d);
    assert PageAt(hhdm, d * PAGE) == v;
  }

  lemma EmptyTop(mem: Memory, root: nat)
    requires 0 < root < |mem| && mem[root] == EmptyFrame()
    ensures Tree(mem, root, map[root := Label(4, 0)])
    ensures forall v :: Page(mem, root, v) == None
  {
    forall v
      ensures Page(mem, root, v) == None
    {
      assert TableAt(mem, root, 4, v) == Some(root);
      assert TableAt(mem, root, 3, v) == None;
      assert TableAt(mem, root, 2, v) == None;
    }
  }

  /** Of all frames only those of `tables` have other contents. */
  ghost predicate TablesOnly(mem: Memory, mem': Memory, tables: map<nat, Label>) {
    |mem'| == |mem| && forall f :: 0 <= f < |mem| && f !in tables ==> mem'[f] == mem[f]
  }

  lemma TablesOnlySame(mem: Memory, tables: map<nat, Label>)
    ensures TablesOnly(mem, mem, tables)
  {}

  lemma TablesOnlyOn(m1: Memory, m2: Memory, m3: Memory, t1: map<nat, Label>, t2: map<nat, Label>)
    requires TablesOnly(m1, m2, t1) && TablesOnly(m2, m3, t2) && t1.Keys <= t2.Keys
    ensures TablesOnly(m1, m3, t2)
  {}

  lemma FlagsJoin(f: nat, flags: nat)
    requires f < 0x100_0000_0000 && (flags == PRESENT + WRITABLE || flags == PRESENT + WRITABLE + USER)
    ensures Joinable(f * PAGE, flags) && f * PAGE / PAGE == f && flags % 2 == 1 && Has(flags, WRITABLE)
    ensures Has(flags, USER) <==> flags == PRESENT + WRITABLE + USER
  {}

  /** What `vmm_map_page` maps a page to: this frame, these flags, and user access only if the tables there are also allow it. */
  ghost predicate MapsTo(m: Option<Mapped>, phys: nat, flags: nat, userPath: bool) {
    match m
    case None => flags % 2 == 0
    case Some(p) =>
      && EntryFrame(p.entry) == phys / PAGE
      && p.entry % PAGE == flags % PAGE && p.entry / 0x10_0000_0000_0000 == flags / 0x10_0000_0000_0000 && flags % 2 == 1
      && (p.writable <==> Has(flags, WRITABLE)) && (p.user <==> Has(flags, USER) && userPath)
  }

  lemma LeafMapsTo(mem: Memory, root: nat, tables: map<nat, Label>, v: nat, phys: nat, flags: nat, userPath: bool)
    requires Tree(mem, root, tables) && v < PAGES && Joinable(phys, flags)
    requires Has(flags, USER) ==> (PathHas(mem, root, 1, v, USER) <==> userPath)
    ensures MapsTo(MappedBy(mem, root, v, Entry(phys, flags)), phys, flags, userPath)
  {
    hide Has, PathHas, Joinable;
    LowBits(Entry(phys, flags), flags);
    TablesAllowWriting(mem, root, tables, 1, v);
  }

  lemma UserFlag(flags: nat, iflags: nat)
    requires iflags == PRESENT + WRITABLE + if flags / 4 % 2 == 1 then USER else 0
    ensures Has(iflags, USER) <==> Has(flags, USER)
  {}

  lemma UserPathAlike(m: Option<Mapped>, phys: nat, flags: nat, a: bool, b: bool)
    requires MapsTo(m, phys, flags, a) && (Has(flags, USER) ==> a == b)
    ensures MapsTo(m, phys, flags, b)
  {}

  lemma DataFlags(m: Option<Mapped>, phys: nat, userPath: bool)
    requires MapsTo(m, phys, PRESENT + WRITABLE, userPath)
    ensures IsData(m, Some(phys / PAGE))
  {}

  class AddressSpace {
    const pmm: PageAllocator
    var mem: Memory
    /** The frame of the top table. */
    var root: nat
    ghost var tables: map<nat, Label>

    ghost predicate Valid()
      reads this, pmm, pmm.bitmap
    {
      && pmm.Valid() && 0 !in pmm.Free()
      && pmm.totalPages <= |mem| <= 0x100_0000_0000
      && Tree(mem, root, tables)
      && forall t :: t in tables ==> t !in pmm.Free()
    }

    constructor (pmm: PageAllocator, mem: Memory)
      ensures this.pmm == pmm && this.mem == mem
    {
      this.pmm, this.mem, root, tables := pmm, mem, 0, map[];
    }

    /** A zeroed frame for a table, or 0. */
    method AllocTable() returns (f: nat)
      requires pmm.Valid() && 0 !in pmm.Free() && pmm.totalPages <= |mem|
      modifies `mem, pmm, pmm.bitmap
      ensures pmm.Valid() && pmm.bitmap == old(pmm.bitmap) && pmm.totalPages == old(pmm.totalPages)
      ensures f == 0 ==> old(pmm.freePages) == 0 && pmm.freePages == 0 && mem == old(mem) && pmm.Free() == old(pmm.Free())
      ensures f != 0 ==>
        && f in old(pmm.Free()) && pmm.Free() == old(pmm.Free()) - {f} && f < |old(mem)|
        && pmm.freePages == old(pmm.freePages) - 1
        && mem == old(mem)[f := EmptyFrame()]
    {
      var phys := pmm.AllocPage();
      if phys == 0 { return 0; }
      f := phys / PAGE;
      ZeroFrame(f);
    }

    method ZeroFrame(f: nat)
      requires f < |mem|
      modifies `mem
      ensures mem == old(mem)[f := EmptyFrame()]
    {
      for i := 0 to 512
        invariant |mem| == |old(mem)|
        invariant forall t :: 0 <= t < |mem| && t != f ==> mem[t] == old(mem)[t]
        invariant forall j :: 0 <= j < i ==> mem[f][j] == 0
      {
        mem := Poke(mem, f, i, 0);
      }
      assert mem[f] == EmptyFrame();
    }

    /** The next table on the path of page `v0`, created if its entry is absent; 0 when that needs a frame and none is free. */
    method GetOrCreateTable(t: nat, i: nat, flags: nat, ghost l: nat, ghost v0: nat) returns (child: nat)
      requires Valid() && 2 <= l <= 4 && v0 < PAGES && i == Index(l, v0)
      requires TableAt(mem, root, l, v0) == Some(t)
      requires flags == PRESENT + WRITABLE || flags == PRESENT + WRITABLE + USER
      modifies `mem, `tables, pmm, pmm.bitmap
      ensures Valid() && SameMapping(old(mem), mem, root)
      ensures pmm.bitmap == old(pmm.bitmap) && pmm.Free() <= old(pmm.Free())
      ensures forall u :: u in tables ==> u in old(tables) || u in old(pmm.Free())
      ensures child == 0 ==> old(pmm.freePages) == 0 && old(TableAt(mem, root, l - 1, v0)) == None && pmm.freePages == 0
      ensures child != 0 ==> TableAt(mem, root, l - 1, v0) == Some(child)
      ensures child != 0 ==>
        pmm.freePages == old(pmm.freePages) - (if old(TableAt(mem, root, l - 1, v0)) == None then 1 else 0)
      ensures old(TableAt(mem, root, l - 1, v0)).Some? ==> mem == old(mem)
      ensures old(TableAt(mem, root, l - 1, v0)) == None && l > 2 ==> TableAt(mem, root, l - 2, v0) == None
      ensures old(pmm.freePages) == 0 ==> mem == old(mem) && tables == old(tables)
      ensures TablesOnly(old(mem), mem, tables) && old(tables).Keys <= tables.Keys
      ensures child != 0 ==> (PathHas(mem, root, 1, v0, USER) <==>
        old(PathHas(mem, root, 1, v0, USER)) && (old(TableAt(mem, root, l - 1, v0)) == None ==> Has(flags, USER)))
    {
      hide Has, PathHas;
      TableLabel(mem, root, tables, l, v0);
      TableLabel(mem, root, tables, l - 1, v0);
      if Present(mem[t][i]) { return EntryFrame(mem[t][i]); }
      ghost var mem0 := mem;
      child := AllocTable();
      if child == 0 { return; }
      HangTable(mem0, t, i, child, flags, l, v0);
    }

    /** Links the zeroed frame `f`, which was free when memory was `mem0`. */
    method HangTable(ghost mem0: Memory, t: nat, i: nat, f: nat, flags: nat, ghost l: nat, ghost v0: nat)
      requires flags == PRESENT + WRITABLE || flags == PRESENT + WRITABLE + USER
      requires 1 < l <= 4 && v0 < PAGES && i == Index(l, v0)
      requires Tree(mem0, root, tables) && TableAt(mem0, root, l, v0) == Some(t) && t < |mem0| <= 0x100_0000_0000
      requires !Present(mem0[t][i]) && 0 < f < |mem0| && f !in tables
      requires mem == mem0[f := EmptyFrame()]
      modifies `mem, `tables
      ensures TablesOnly(mem0, mem, tables)
      ensures Tree(mem, root, tables) && SameMapping(mem0, mem, root) && |mem| == |mem0|
      ensures TableAt(mem, root, l - 1, v0) == Some(f)
      ensures l > 2 ==> TableAt(mem, root, l - 2, v0) == None
      ensures tables.Keys == old(tables).Keys + {f}
      ensures PathHas(mem, root, 1, v0, USER) <==> PathHas(mem0, root, 1, v0, USER) && Has(flags, USER)
    {
      hide Has, PathHas, Page, Joinable;
      FlagsJoin(f, flags);
      var e := Entry(f * PAGE, flags);
      LowBits(e, flags);
      TableLabel(mem0, root, tables, l, v0);
      mem := Poke(mem, t, i, e);
      HangKeepsTree(mem0, root, tables, l, v0, t, f, e);
      forall v: nat | v < PAGES
        ensures Page(mem0, root, v) == Page(mem, root, v)
      {
        HangKeepsLookup(mem0, root, tables, l, v0, t, f, e, v);
      }
      HangKeepsLookup(mem0, root, tables, l, v0, t, f, e, v0);
      PathAfterHang(mem0, root, tables, l, v0, t, f, e, 1, v0, USER);
      if l > 2 { FollowAfterHang(mem0, t, i, f, e, Some(f), Index(l - 1, v0)); }
      tables := tables[f := Label(l - 1, Prefix(l - 1, v0))];
    }

    /**
     * Maps one page. It succeeds exactly when there are frames for the missing tables; then that page
     * and no other changes, and it may be written if the flags say so. The user may access it if the flags say so and the
     * tables that were already there let the user through. On failure no mapping changes.
     */
    method MapPage(virt: nat, phys: nat, flags: nat) returns (ghost ok: bool, ghost to: Option<Mapped>)
      requires Valid() && Joinable(phys, flags)
      modifies `mem, `tables, pmm, pmm.bitmap
      ensures Valid() && pmm.bitmap == old(pmm.bitmap) && pmm.Free() <= old(pmm.Free())
      ensures forall u :: u in tables ==> u in old(tables) || u in old(pmm.Free())
      ensures TablesOnly(old(mem), mem, tables) && old(tables).Keys <= tables.Keys
      ensures ok <==> Missing(old(mem), root, Vpn(virt)) <= old(pmm.freePages)
      ensures pmm.freePages == if ok then old(pmm.freePages) - Missing(old(mem), root, Vpn(virt)) else 0
      ensures Remapped(old(mem), mem, root, Vpn(virt), to)
      ensures if ok then MapsTo(to, phys, flags, old(PathHas(mem, root, 1, Vpn(virt), USER))) else to == old(Page(mem, root, Vpn(virt)))
      ensures ok ==> (PathHas(mem, root, 1, Vpn(virt), USER) <==>
        old(PathHas(mem, root, 1, Vpn(virt), USER)) && (old(Missing(mem, root, Vpn(virt))) > 0 ==> Has(flags, USER)))
      ensures !ok ==> NoTable(mem, root, Vpn(virt))
      ensures old(pmm.freePages) == 0 ==> StillNoTable(old(mem), mem, root)
    {
      hide Valid, Page, PathHas, TableAt, Index, Vpn, Remapped, SameMapping, StillNoTable, Joinable, MapsTo, Has, TablesOnly;
      ghost var v, mem0 := Vpn(virt), mem;
      to := Page(mem, root, v);
      IndicesOfAddress(virt);
      Path(mem, root, v);
      NothingRemapped(mem0, mem, root, v);
      var iflags := PRESENT + WRITABLE + if flags / 4 % 2 == 1 then USER else 0;
      UserFlag(flags, iflags);
      var pdpt := GetOrCreateTable(root, virt / 0x80_0000_0000 % 512, iflags, 4, v);
      NothingRemapped(mem0, mem, root, v);
      Path(mem, root, v);
      if pdpt == 0 { return false, to; }
      ghost var mem1, t1 := mem, tables;
      var pd := GetOrCreateTable(pdpt, virt / 0x4000_0000 % 512, iflags, 3, v);
      SameMappingTrans(mem0, mem1, mem, root);
      TablesOnlyOn(mem0, mem1, mem, t1, tables);
      NothingRemapped(mem0, mem, root, v);
      Path(mem, root, v);
      if pd == 0 { return false, to; }
      ghost var mem2, t2 := mem, tables;
      var pt := GetOrCreateTable(pd, virt / 0x20_0000 % 512, iflags, 2, v);
      SameMappingTrans(mem0, mem2, mem, root);
      TablesOnlyOn(mem0, mem2, mem, t2, tables);
      NothingRemapped(mem0, mem, root, v);
      if pt == 0 { return false, to; }
      ghost var mem3 := mem;
      to := SetLeaf(pt, virt / 0x1000 % 512, phys, flags, v);
      UserPathAlike(to, phys, flags, PathHas(mem3, root, 1, v, USER), PathHas(mem0, root, 1, v, USER));
      RemappedFrom(mem0, mem3, mem, root, v, to);
      TablesOnlyOn(mem0, mem3, mem, tables, tables);
      ok := true;
    }

    /**
     * A page that is mapped for the user next to one that was mapped for the kernel is out of the user's reach: its own
     * entry has the USER bit, but a table entry above it, made for the kernel's page, has not.
     */
    method UserPageNextToKernels(virt: nat, phys: nat, virt2: nat, phys2: nat)
      requires Valid() && Joinable(phys, PRESENT + WRITABLE) && Joinable(phys2, PRESENT + WRITABLE + USER)
      requires 0 < Missing(mem, root, Vpn(virt)) <= pmm.freePages
      requires Near(1, Vpn(virt), Vpn(virt2)) && Vpn(virt) != Vpn(virt2)
      modifies `mem, `tables, pmm, pmm.bitmap
      ensures Valid() && Page(mem, root, Vpn(virt2)).Some?
      ensures Has(Page(mem, root, Vpn(virt2)).value.entry, USER) && !Page(mem, root, Vpn(virt2)).value.user
    {
      hide Valid, PathHas, TableAt, Index, Vpn, StillNoTable, Joinable, Near;
      ghost var ok, to := MapPage(virt, phys, PRESENT + WRITABLE);
      assert Page(mem, root, Vpn(virt)) == to;
      NearTablesEqual(mem, root, 1, Vpn(virt), Vpn(virt2));
      NearPaths(mem, root, 1, Vpn(virt), Vpn(virt2), USER);
      ghost var ok2, to2 := MapPage(virt2, phys2, PRESENT + WRITABLE + USER);
      assert Page(mem, root, Vpn(virt2)) == to2;
      LowBits(to2.value.entry, PRESENT + WRITABLE + USER);
    }

    /** Writes the last-level entry of page `v`. */
    method SetLeaf(pt: nat, i: nat, phys: nat, flags: nat, ghost v: nat) returns (ghost to: Option<Mapped>)
      requires Valid() && Joinable(phys, flags) && v < PAGES && i == Index(1, v) && TableAt(mem, root, 1, v) == Some(pt)
      modifies `mem
      ensures Valid() && Remapped(old(mem), mem, root, v, to) && MapsTo(to, phys, flags, old(PathHas(mem, root, 1, v, USER)))
      ensures TablesOnly(old(mem), mem, tables)
      ensures StillNoTable(old(mem), mem, root) && (PathHas(mem, root, 1, v, USER) <==> old(PathHas(mem, root, 1, v, USER)))
    {
      hide Page, PathHas, TableAt, Tree, Index, Remapped, StillNoTable, MapsTo, MappedBy;
      LeafTable(mem, root, tables, v);
      to := MappedBy(mem, root, v, Entry(phys, flags));
      LeafMapsTo(mem, root, tables, v, phys, flags, PathHas(mem, root, 1, v, USER));
      PathAfterLeaf(mem, root, tables, pt, i, Entry(phys, flags), 1, v, USER);
      mem := Poke(mem, pt, i, Entry(phys, flags));
      LeafKeepsTree(old(mem), root, tables, pt, i, Entry(phys, flags));
      LeafRemaps(old(mem), root, tables, v, Entry(phys, flags));
    }

    /** Unmaps one page and no other. */
    method UnmapPage(virt: nat)
      requires Valid()
      modifies `mem
      ensures Valid()
      ensures Remapped(old(mem), mem, root, Vpn(virt), None) && TablesOnly(old(mem), mem, tables)
    {
      ghost var v := Vpn(virt);
      IndicesOfAddress(virt);
      TableLabel(mem, root, tables, 3, v);
      TableLabel(mem, root, tables, 2, v);
      TableLabel(mem, root, tables, 1, v);
      var pml4e := mem[root][virt / 0x80_0000_0000 % 512];
      if !Present(pml4e) { return; }
      var pdpte := mem[EntryFrame(pml4e)][virt / 0x4000_0000 % 512];
      if !Present(pdpte) { return; }
      var pde := mem[EntryFrame(pdpte)][virt / 0x20_0000 % 512];
      if !Present(pde) { return; }
      var pt := EntryFrame(pde);
      mem := Poke(mem, pt, virt / 0x1000 % 512, 0);
      LeafKeepsTree(old(mem), root, tables, pt, Index(1, v), 0);
      LeafRemaps(old(mem), root, tables, v, 0);
    }

    /** The physical address of a mapped virtual address, and 0 for an unmapped one. */
    method VirtToPhys(virt: nat) returns (phys: nat)
      requires Valid()
      ensures phys == Translate(mem, root, virt)
    {
      ghost var v := Vpn(virt);
      IndicesOfAddress(virt);
      TableLabel(mem, root, tables, 3, v);
      TableLabel(mem, root, tables, 2, v);
      TableLabel(mem, root, tables, 1, v);
      var pml4e := mem[root][virt / 0x80_0000_0000 % 512];
      if !Present(pml4e) { return 0; }
      var pdpte := mem[EntryFrame(pml4e)][virt / 0x4000_0000 % 512];
      if !Present(pdpte) { return 0; }
      var pde := mem[EntryFrame(pdpte)][virt / 0x20_0000 % 512];
      if !Present(pde) { return 0; }
      var pte := mem[EntryFrame(pde)][virt / 0x1000 % 512];
      if !Present(pte) { return 0; }
      return EntryFrame(pte) * PAGE + virt % 0x1000;
    }

    /** Boot: an empty top table, then both windows. It succeeds exactly if every page is then mapped as it should be. */
    method Init(mm: seq<Region>, hhdm: nat, kphys: nat, kvirt: nat) returns (ghost ok: bool)
      requires pmm.Valid() && 0 !in pmm.Free() && pmm.totalPages <= |mem| <= 0x100_0000_0000
      requires forall i :: 0 <= i < |mm| ==> AlignUp(mm[i].End()) <= PAGES * PAGE
      requires hhdm % PAGE == 0 && kphys % PAGE == 0 && kvirt % PAGE == 0
      requires kphys + KERNEL_PAGES * PAGE <= 0x10_0000_0000_0000
      modifies this, pmm, pmm.bitmap
      ensures ok ==> Valid()
      ensures ok <==> root != 0 && BootDone(mem, root, mm, hhdm, kphys, kvirt)
      ensures TablesOnly(old(mem), mem, tables)
      ensures !ok ==> pmm.freePages == 0
    {
      hide BootDone, BootShort, WindowDone, Tree, Page;
      root := AllocTable();
      if root == 0 { return false; }
      tables := map[root := Label(4, 0)];
      EmptyTop(mem, root);
      NothingMapped(mem, root, mm, hhdm);
      ok := true;
      for i := 0 to |mm|
        invariant Valid() && pmm.bitmap == old(pmm.bitmap) && root != 0 && TablesOnly(old(mem), mem, tables)
        invariant if ok then WindowDone(mem, root, mm, hhdm, i, 0, 0)
                  else pmm.freePages == 0 && BootShort(mem, root, mm, hhdm, kphys, kvirt)
      {
        ghost var mem0, t0 := mem, tables;
        ok := MapRegion(mm, hhdm, i, kphys, kvirt, ok);
        TablesOnlyOn(old(mem), mem0, mem, t0, tables);
      }
      ghost var mem0, t0 := mem, tables;
      ok := MapKernel(mm, hhdm, kphys, kvirt, ok);
      TablesOnlyOn(old(mem), mem0, mem, t0, tables);
      if !ok { ShortIsNotDone(mem, root, mm, hhdm, kphys, kvirt); }
    }

    /** The window over all memory, for one region rounded outward. */
    method MapRegion(mm: seq<Region>, hhdm: nat, n: nat, ghost kphys: nat, ghost kvirt: nat, ghost ok0: bool) returns (ghost ok: bool)
      requires Valid() && n < |mm| && AlignUp(mm[n].End()) <= PAGES * PAGE && hhdm % PAGE == 0
      requires if ok0 then WindowDone(mem, root, mm, hhdm, n, 0, 0)
               else pmm.freePages == 0 && BootShort(mem, root, mm, hhdm, kphys, kvirt)
      modifies `mem, `tables, pmm, pmm.bitmap
      ensures Valid() && pmm.bitmap == old(pmm.bitmap)
      ensures TablesOnly(old(mem), mem, tables) && old(tables).Keys <= tables.Keys
      ensures if ok then WindowDone(mem, root, mm, hhdm, n + 1, 0, 0)
              else pmm.freePages == 0 && BootShort(mem, root, mm, hhdm, kphys, kvirt)
    {
      hide BootShort, WindowDone, Tree, Page, PathHas, Remapped, StillNoTable, NoTable, Vpn, MapsTo, IsData, TablesOnly;
      var lo: nat, hi: nat := mm[n].base / PAGE, AlignUp(mm[n].End()) / PAGE;
      var f: nat := lo;
      ok := ok0;
      TablesOnlySame(mem, tables);
      if ok { WindowStarts(mem, root, mm, hhdm, n, lo); }
      while f < hi
        invariant lo <= f && Valid() && pmm.bitmap == old(pmm.bitmap) && (f <= hi || f == lo)
        invariant TablesOnly(old(mem), mem, tables) && old(tables).Keys <= tables.Keys
        invariant if ok then WindowDone(mem, root, mm, hhdm, n, lo, f)
                  else pmm.freePages == 0 && BootShort(mem, root, mm, hhdm, kphys, kvirt)
      {
        ghost var mem0, t0 := mem, tables;
        var phys: nat := f * PAGE;
        var virt: nat := (phys + hhdm) % TWO64;
        ghost var mapped, to := MapPage(virt, phys, PRESENT + WRITABLE);
        TablesOnlyOn(old(mem), mem0, mem, t0, tables);
        if !ok {
          ShortStays(mem0, mem, root, mm, hhdm, kphys, kvirt);
        } else if mapped {
          DataFlags(to, phys, PathHas(mem0, root, 1, Vpn(virt), USER));
          WindowStep(mem0, mem, root, mm, hhdm, n, lo, f, to);
        } else {
          ShortInWindow(mem, root, mm, hhdm, kphys, kvirt, n, f);
        }
        ok := ok && mapped;
        f := f + 1;
      }
      if ok { WindowNext(mem, root, mm, hhdm, n, f); }
    }

    /** The kernel window. */
    method MapKernel(mm: seq<Region>, hhdm: nat, kphys: nat, kvirt: nat, ghost ok0: bool) returns (ghost ok: bool)
      requires Valid() && kphys % PAGE == 0 && kvirt % PAGE == 0
      requires kphys + KERNEL_PAGES * PAGE <= 0x10_0000_0000_0000
      requires if ok0 then WindowDone(mem, root, mm, hhdm, |mm|, 0, 0)
               else pmm.freePages == 0 && BootShort(mem, root, mm, hhdm, kphys, kvirt)
      modifies `mem, `tables, pmm, pmm.bitmap
      ensures Valid() && TablesOnly(old(mem), mem, tables) && old(tables).Keys <= tables.Keys
      ensures if ok then BootDone(mem, root, mm, hhdm, kphys, kvirt)
              else pmm.freePages == 0 && BootShort(mem, root, mm, hhdm, kphys, kvirt)
    {
      hide BootShort, KernelDone, WindowDone, BootDone, Tree, Page, PathHas, Remapped, StillNoTable, NoTable, Vpn, MapsTo, IsData, TablesOnly;
      ok := ok0;
      TablesOnlySame(mem, tables);
      if ok { KernelStarts(mem, root, mm, hhdm, kphys, kvirt); }
      for k := 0 to KERNEL_PAGES
        invariant Valid() && pmm.bitmap == old(pmm.bitmap)
        invariant TablesOnly(old(mem), mem, tables) && old(tables).Keys <= tables.Keys
        invariant if ok then KernelDone(mem, root, mm, hhdm, kphys, kvirt, k)
                  else pmm.freePages == 0 && BootShort(mem, root, mm, hhdm, kphys, kvirt)
      {
        ghost var mem0, t0 := mem, tables;
        var off: nat := k * PAGE;
        var virt: nat := (off + kvirt) % TWO64;
        ghost var mapped, to := MapPage(virt, kphys + off, PRESENT + WRITABLE);
        TablesOnlyOn(old(mem), mem0, mem, t0, tables);
        if !ok {
          ShortStays(mem0, mem, root, mm, hhdm, kphys, kvirt);
        } else if mapped {
          DataFlags(to, kphys + off, PathHas(mem0, root, 1, Vpn(virt), USER));
          KernelStep(mem0, mem, root, mm, hhdm, kphys, kvirt, k, to);
        } else {
          ShortInKernel(mem, root, mm, hhdm, kphys, kvirt, k);
        }
        ok := ok && mapped;
      }
      if ok { KernelEnds(mem, root, mm, hhdm, kphys, kvirt); }
    }

    /**
     * The heap's pages: each gets a frame of its own that was free. It succeeds exactly if all of them are then
     * mapped, in order, and every other page as before.
     */
    method MapHeap(start: nat, count: nat) returns (ghost frames: seq<nat>, ghost ok: bool)
      requires Valid() && start % PAGE == 0 && count <= PAGES
      modifies `mem, `tables, pmm, pmm.bitmap
      ensures Valid() && pmm.Free() <= old(pmm.Free())
      ensures TablesOnly(old(mem), mem, tables) && old(tables).Keys <= tables.Keys
      ensures |frames| <= count
      ensures forall i :: 0 <= i < |frames| ==> frames[i] in old(pmm.Free()) && frames[i] !in pmm.Free() && frames[i] !in tables
      ensures forall i, j :: 0 <= i < j < |frames| ==> frames[i] != frames[j]
      ensures ok <==> |frames| == count && HeapDone(old(mem), mem, root, start, frames)
      ensures !ok ==> pmm.freePages == 0
    {
      hide Missing, HeapDone, HeapShort, Tree, Page, PathHas, Remapped, StillNoTable, NoTable, Vpn, MapsTo, IsData, TablesOnly;
      frames, ok := [], true;
      NothingMappedYet(mem, root, start);
      TablesOnlySame(mem, tables);
      for k := 0 to count
        invariant Valid() && pmm.bitmap == old(pmm.bitmap) && pmm.Free() <= old(pmm.Free())
        invariant TablesOnly(old(mem), mem, tables) && old(tables).Keys <= tables.Keys
        invariant |frames| == k
        invariant forall i :: 0 <= i < k ==>
          frames[i] in old(pmm.Free()) && frames[i] !in pmm.Free() && frames[i] !in tables
        invariant forall i, j :: 0 <= i < j < k ==> frames[i] != frames[j]
        invariant if ok then HeapDone(old(mem), mem, root, start, frames)
                  else pmm.freePages == 0 && HeapShort(mem, root, start, k)
      {
        var phys := pmm.AllocPage();
        if phys == 0 {
          ok := false;
          return;
        }
        ghost var mem0, t0 := mem, tables;
        var virt: nat := (k * PAGE + start) % TWO64;
        ghost var mapped, to := MapPage(virt, phys, PRESENT + WRITABLE);
        TablesOnlyOn(old(mem), mem0, mem, t0, tables);
        if mapped {
          DataFlags(to, phys, PathHas(mem0, root, 1, Vpn(virt), USER));
          HeapStep(old(mem), mem0, mem, root, start, frames, phys / PAGE, to);
        } else {
          HeapShortHere(mem, root, start, k);
        }
        frames := frames + [phys / PAGE];
        ok := mapped;
      }
      if !ok { HeapShortIsNotDone(old(mem), mem, root, start, frames); }
    }
  }
}
