/** Creating files and directories on a FAT32 volume. */
module FatCreate {
  import opened Bytes
  import opened FatVolume
  import opened FatTable
  import opened FatChains
  import opened FatFile
  import opened FatNames
  import opened FatEntries
  import opened FatLongNames
  import opened FatTree
  import opened FatNodes
  import opened FatScan
  import opened FatStore
  import opened FatRoom
  import opened FatDriver
  import opened FatDirs

  // ---- A free slot

  predicate IsFree(x: byte) { x == 0 || x == DELETED }

  /** Every entry below `pos` is in use. */
  ghost predicate AllTaken(b: seq<byte>, pos: nat) {
    forall q: nat :: EntryPos(b, q) && q < pos ==> !IsFree(b[q])
  }

  /** None of the entries is free. */
  ghost predicate Full(b: seq<byte>) { AllTaken(b, |b|) }

  /** Directory `head` may have become longer, by unused entries only. */
  ghost predicate DirStep(t: Tree, t': Tree, head: nat) {
    && DirsTouched(t, t', head)
    && t'.dirs == t.dirs && t'.refs == t.refs && t'.store.Keys == t.store.Keys
    && forall h :: h in t.store && h != head ==> t'.store[h] == t.store[h]
  }

  lemma NoDirStep(t: Tree, head: nat)
    requires TreeSound(t)
    ensures DirStep(t, t, head)
  {}

  /** The scan for a free slot stands at the `k`-th cluster of `head`; everything before it is taken. */
  ghost predicate Seeking(dr: Driver, t0: Tree, l0: Ledger, head: nat, k: nat, cluster: nat)
    reads dr, dr.vol
  {
    && dr.OnDisk() && TreeSound(dr.tree) && head in dr.tree.dirs && head in dr.tree.store && head in dr.l.chains
    && DirStep(t0, dr.tree, head) && LedgerStep(l0, dr.l, head)
    && k < |dr.l.chains[head]| && cluster == dr.l.chains[head][k]
    && AllTaken(dr.tree.store[head], Base(dr.vol.g.BytesPerCluster(), k))
    && ((dr.tree == t0 && dr.l == l0) || (HadToGrow(t0, l0, dr.l, head) && FreshAt(dr.tree.store[head], Base(dr.vol.g.BytesPerCluster(), k))))
  }

  /** Directory `head` was full, and has a cluster more now. */
  ghost predicate HadToGrow(t0: Tree, l0: Ledger, l: Ledger, head: nat) {
    && head in t0.store && Full(t0.store[head])
    && head in l0.chains && head in l.chains && |l.chains[head]| == |l0.chains[head]| + 1
  }

  predicate FreshAt(b: seq<byte>, pos: nat) { EntryPos(b, pos) && b[pos] == 0 }

  /** A free entry, the first of its directory, whose sector is in the buffer. */
  ghost predicate FreeSlot(dr: Driver, s: Slot, cluster: nat, off: nat)
    reads dr, dr.vol, dr.vol.buf
  {
    && Inside(dr.tree, s) && IsFree(dr.tree.store[s.dir][s.pos]) && AllTaken(dr.tree.store[s.dir], s.pos)
    && off < dr.vol.g.BytesPerCluster() && Lies(dr.l.chains, dr.vol.g.BytesPerCluster(), s, cluster, off)
    && dr.vol.g.Cluster(cluster) && dr.vol.g.Lba(cluster) + off / 512 < |dr.vol.disk|
    && dr.vol.buf[..] == dr.vol.disk[dr.vol.g.Lba(cluster) + off / 512]
  }

  lemma TakenMore(b: seq<byte>, pos: nat)
    requires AllTaken(b, pos) && EntryPos(b, pos) && !IsFree(b[pos])
    ensures AllTaken(b, pos + ENTRY)
  {}

  /** Looks through the sixteen entries of one sector. */
  method SeekSector(dr: Driver, cluster: nat, sector: nat, ghost head: nat, ghost k: nat)
    returns (found: bool, off: nat, ghost s: Slot)
    requires dr.OnDisk() && TreeSound(dr.tree) && head in dr.tree.dirs && head in dr.tree.store && head in dr.l.chains
    requires k < |dr.l.chains[head]| && cluster == dr.l.chains[head][k] && sector < dr.vol.g.spc
    requires AllTaken(dr.tree.store[head], Base(dr.vol.g.BytesPerCluster(), k) + sector * 512)
    modifies dr.vol.buf
    ensures found ==> s.dir == head && FreeSlot(dr, s, cluster, off)
    ensures !found ==> AllTaken(dr.tree.store[head], Base(dr.vol.g.BytesPerCluster(), k) + sector * 512 + 512)
    ensures !found ==> !FreshAt(dr.tree.store[head], Base(dr.vol.g.BytesPerCluster(), k) + sector * 512)
  {
    hide TreeSound, Owned, IsStore, AllTaken, Base;
    ghost var base, b := Base(dr.vol.g.BytesPerCluster(), k) + sector * 512, dr.tree.store[head];
    found, off, s := false, 0, Slot(head, base);
    OffsetParts(dr.vol.g.spc, sector, 0);
    EntryThere(dr, head, k, cluster, sector * 512, base, sector, 0);
    dr.vol.ReadSector(dr.vol.g.Lba(cluster) + sector);
    var e: nat := 0;
    while e < 16 && !found
      invariant e <= 16 && dr.vol.buf[..] == dr.vol.disk[dr.vol.g.Lba(cluster) + sector]
      invariant found ==> s.dir == head && FreeSlot(dr, s, cluster, off)
      invariant !found ==> AllTaken(b, base + e * 32)
      invariant !found && e > 0 ==> !FreshAt(b, base)
    {
      OffsetParts(dr.vol.g.spc, sector, e);
      EntryThere(dr, head, k, cluster, sector * 512 + e * 32, base + e * 32, sector, e * 32);
      assert dr.vol.buf[e * 32] == EntryAt(b, base + e * 32)[0] == b[base + e * 32];
      if IsFree(dr.vol.buf[e * 32]) {
        found, off, s := true, sector * 512 + e * 32, Slot(head, base + e * 32);
      } else {
        TakenMore(b, base + e * 32);
      }
      e := e + 1;
    }
  }

  /** A directory longer by a cluster of unused entries. */
  lemma DirExtended(t: Tree, head: nat, bpc: nat)
    requires TreeSound(t) && head in t.dirs && bpc % ENTRY == 0 && bpc > 0
    ensures head in t.store
    ensures var b, t' := t.store[head], PutChain(t, head, t.store[head] + Zeros(bpc));
      && TreeSound(t') && DirStep(t, t', head)
      && FreshAt(b + Zeros(bpc), |b|)
      && forall pos: nat :: pos <= |b| && AllTaken(b, pos) ==> AllTaken(b + Zeros(bpc), pos)
  {
    hide EntriesSound, WildSound, EndsOnce, LongNamesFit, Shows, NoLongNames;
    DirsInStore(t, head);
    DirGrown(t, head, bpc);
    Aligned(|t.store[head]|, bpc);
    Inward(bpc, 0);
    if NoLongNames(t.store[head]) { NoLongNamesGrown(t.store[head], bpc); }
  }

  lemma ExtendedInLedger(l: Ledger, head: nat, c: nat)
    requires head in l.chains
    ensures LedgerStep(l, ExtendChain(l, head, c), head) && |ExtendChain(l, head, c).chains[head]| == |l.chains[head]| + 1
  {}

  lemma LedgerKeepsDirs(l: Ledger, l': Ledger, f: nat, dirs: set<nat>)
    requires LedgerStep(l, l', f)
    ensures DirsKept(l.chains, l'.chains, dirs)
  {}

  /** The cluster after the `k`-th of a directory, appended if the `k`-th is the last. */
  method NextCluster(dr: Driver, cluster: nat, ghost head: nat, ghost k: nat) returns (next: nat)
    requires dr.OnDisk() && head in dr.l.chains && k < |dr.l.chains[head]| && cluster == dr.l.chains[head][k]
    requires head in dr.tree.store
    modifies dr`l, dr`tree, dr.vol`disk, dr.vol.buf
    ensures dr.OnDisk() && dr.vol.Untouched() == old(dr.vol.Untouched())
    ensures next == 0 ==> NoneFree(dr.vol) && k + 1 == |old(dr.l).chains[head]|
    ensures next == 0 || k + 1 < |old(dr.l).chains[head]| ==> dr.tree == old(dr.tree) && dr.l == old(dr.l)
    ensures next != 0 ==> head in dr.l.chains && k + 1 < |dr.l.chains[head]| && dr.l.chains[head][k + 1] == next
    ensures next != 0 && k + 1 == |old(dr.l).chains[head]| ==>
      && dr.l == ExtendChain(old(dr.l), head, next)
      && dr.tree == PutChain(old(dr.tree), head, old(dr.tree).store[head] + Zeros(dr.vol.g.BytesPerCluster()))
  {
    hide Owned, NoneFree, Base, OnlyChain, FileBytes, Written, Grown, ChainBytes, StoreOf;
    ghost var t, l0, b, fat, data := dr.tree, dr.l, dr.tree.store[head], dr.vol.Fat(), dr.vol.Data();
    BaseOfPrefix(dr.vol, l0, head, k);
    StoreAt(dr.vol, l0, t.store, head);
    next, dr.l := NextOrExtend(dr.vol, cluster, l0, head, k, Base(dr.vol.g.BytesPerCluster(), k));
    if next != 0 && k + 1 == |l0.chains[head]| {
      StoreStep(fat, head, data, l0, dr.vol.Data(), dr.l);
      dr.tree := PutChain(t, head, b + Zeros(dr.vol.g.BytesPerCluster()));
    }
  }

  /** The next cluster of the directory, allocated if there is none; 0 when that fails. */
  method SeekNext(dr: Driver, cluster: nat, ghost head: nat, ghost k: nat) returns (next: nat)
    requires Seeking(dr, dr.tree, dr.l, head, k, cluster)
    requires AllTaken(dr.tree.store[head], Base(dr.vol.g.BytesPerCluster(), k + 1))
    modifies dr`l, dr`tree, dr.vol`disk, dr.vol.buf
    ensures dr.vol.Untouched() == old(dr.vol.Untouched())
    ensures next == 0 ==> dr.OnDisk() && dr.tree == old(dr.tree) && dr.l == old(dr.l) && NoneFree(dr.vol) && Full(dr.tree.store[head])
    ensures next != 0 ==> Seeking(dr, old(dr.tree), old(dr.l), head, k + 1, next)
  {
    hide TreeSound, Owned, IsStore, AllTaken, DirStep, NoneFree, Base, FreshAt, FileBytes, LedgerStep;
    ghost var t, l0, bpc := dr.tree, dr.l, dr.vol.g.BytesPerCluster();
    StoreAt(dr.vol, l0, t.store, head);
    BytesPerClusterAligned(dr.vol.g);
    DirExtended(t, head, bpc);
    WholeChain(dr.vol, l0, head);
    NoDirStep(t, head);
    LedgerSteps(l0, head);
    next := NextCluster(dr, cluster, head, k);
    if next != 0 { ExtendedInLedger(l0, head, next); }
  }

  /** Looks through the sectors of one cluster. */
  method SeekInCluster(dr: Driver, cluster: nat, ghost head: nat, ghost k: nat)
    returns (found: bool, off: nat, ghost s: Slot)
    requires dr.OnDisk() && TreeSound(dr.tree) && head in dr.tree.dirs && head in dr.tree.store && head in dr.l.chains
    requires k < |dr.l.chains[head]| && cluster == dr.l.chains[head][k]
    requires AllTaken(dr.tree.store[head], Base(dr.vol.g.BytesPerCluster(), k))
    modifies dr.vol.buf
    ensures found ==> s.dir == head && FreeSlot(dr, s, cluster, off)
    ensures !found ==> AllTaken(dr.tree.store[head], Base(dr.vol.g.BytesPerCluster(), k + 1))
    ensures !found ==> !FreshAt(dr.tree.store[head], Base(dr.vol.g.BytesPerCluster(), k))
  {
    hide TreeSound, Owned, IsStore, AllTaken, FreeSlot, FreshAt;
    ghost var base, b := Base(dr.vol.g.BytesPerCluster(), k), dr.tree.store[head];
    found, off, s := false, 0, Slot(head, base);
    var sector: nat := 0;
    while sector < dr.vol.g.spc && !found
      invariant sector <= dr.vol.g.spc
      invariant found ==> s.dir == head && FreeSlot(dr, s, cluster, off)
      invariant !found ==> AllTaken(b, base + sector * 512)
      invariant !found && sector > 0 ==> !FreshAt(b, base)
    {
      found, off, s := SeekSector(dr, cluster, sector, head, k);
      sector := sector + 1;
    }
  }

  lemma ClusterIsLink(dr: Driver, t0: Tree, l0: Ledger, head: nat, k: nat, cluster: nat)
    requires Seeking(dr, t0, l0, head, k, cluster)
    ensures IsLink(cluster)
  {
    ChainLink(dr.vol.Fat(), dr.l.chains[head], k);
  }

  lemma SeekingStarts(dr: Driver, d: Ptr, head: nat)
    requires dr.Valid() && d in dr.nodes && dr.nodes[d].isDir && head == HeadOf(dr.tree.root, dr.nodes[d])
    ensures Seeking(dr, dr.tree, dr.l, head, 0, head)
  {
    hide Driver.Valid, TreeSound, CacheSound, Settled, Owned, Handles, IsStore, DirStep, LedgerStep, DirBytes;
    SoundParts(dr);
    HeadOfDir(dr, d);
    LedgerSteps(dr.l, head);
    NoDirStep(dr.tree, head);
  }

  /**
   * A search that found a slot found one in the directory as it was, or in a cluster it gained because there was none;
   * otherwise it did nothing.
   */
  ghost predicate Widened(t: Tree, l: Ledger, t': Tree, l': Ledger, head: nat, found: bool) {
    && head in t.store && head in l.chains
    && if found && Full(t.store[head]) then HadToGrow(t, l, l', head) else t' == t && l' == l && (found <==> !Full(t.store[head]))
  }

  lemma SlotFound(dr: Driver, s: Slot, cluster: nat, off: nat)
    requires FreeSlot(dr, s, cluster, off)
    ensures s.dir in dr.tree.store && !Full(dr.tree.store[s.dir])
  {}

  /** The search itself: the first free entry of directory `head`, which may grow to have one. */
  method SeekSlot(dr: Driver, ghost head: nat, first: nat) returns (found: bool, cluster: nat, off: nat, ghost s: Slot)
    requires Seeking(dr, dr.tree, dr.l, head, 0, first)
    modifies dr`l, dr`tree, dr.vol`disk, dr.vol.buf
    ensures dr.OnDisk() && TreeSound(dr.tree) && dr.vol.Untouched() == old(dr.vol.Untouched())
    ensures DirStep(old(dr.tree), dr.tree, head) && LedgerStep(old(dr.l), dr.l, head)
    ensures found ==> s.dir == head && FreeSlot(dr, s, cluster, off)
    ensures Widened(old(dr.tree), old(dr.l), dr.tree, dr.l, head, found) && (!found ==> NoneFree(dr.vol))
  {
    hide TreeSound, Owned, IsStore, Full, AllTaken, FreeSlot, FreshAt, DirStep, LedgerStep, NoneFree;
    ghost var t0, l0 := dr.tree, dr.l;
    found, off, s, cluster := false, 0, Slot(head, 0), first;
    ghost var k: nat := 0;
    while true
      invariant Seeking(dr, t0, l0, head, k, cluster) && head in l0.chains && k <= |l0.chains[head]|
      invariant dr.vol.Untouched() == old(dr.vol.Untouched()) && !found
      decreases |l0.chains[head]| - k
    {
      ClusterIsLink(dr, t0, l0, head, k, cluster);
      found, off, s := SeekInCluster(dr, cluster, head, k);
      if found {
        SlotFound(dr, s, cluster, off);
        return;
      }
      var next := SeekNext(dr, cluster, head, k);
      if next == 0 { return; }
      cluster, k := next, k + 1;
    }
  }

  /** A free entry of directory `d`: an unused or a deleted one, or one in a new cluster. */
  method FindSlot(dr: Driver, d: Ptr) returns (found: bool, cluster: nat, off: nat, ghost s: Slot)
    requires dr.Valid() && d in dr.nodes && dr.nodes[d].isDir
    modifies dr`l, dr`tree, dr.vol`disk, dr.vol.buf
    ensures dr.Valid() && dr.vol.Untouched() == old(dr.vol.Untouched())
    ensures DirStep(old(dr.tree), dr.tree, HeadOf(old(dr.tree).root, dr.nodes[d]))
    ensures LedgerStep(old(dr.l), dr.l, HeadOf(old(dr.tree).root, dr.nodes[d]))
    ensures found ==> s.dir == HeadOf(dr.tree.root, dr.nodes[d]) && FreeSlot(dr, s, cluster, off)
    ensures Widened(old(dr.tree), old(dr.l), dr.tree, dr.l, HeadOf(old(dr.tree).root, dr.nodes[d]), found)
    ensures !found ==> dr.tree == old(dr.tree) && dr.l == old(dr.l) && NoneFree(dr.vol)
  {
    hide TreeSound, CacheSound, Settled, Owned, IsStore, Full, AllTaken, FreeSlot, FreshAt, Handles, NoneFree, DirsKept,
         LedgerStep, SameEntries;
    ghost var t, l0, v, head := dr.tree, dr.l, dr.View(), HeadOf(dr.tree.root, dr.nodes[d]);
    SeekingStarts(dr, d, head);
    var first: nat := if dr.nodes[d].first == 0 then dr.vol.g.rootCluster else dr.nodes[d].first;
    found, cluster, off, s := SeekSlot(dr, head, first);
    TreeStep(t, dr.tree, v);
    LedgerKeepsDirs(l0, dr.l, head, t.dirs);
    SettledFrame(l0.chains, dr.l.chains, dr.vol.g.BytesPerCluster(), t, v);
  }

  // ---- A new directory's cluster

  function DotName(dots: nat): (n: ShortName)
    requires 1 <= dots <= 2
    ensures n.Wide() && n.base[0] == DOT
  {
    ShortName((if dots == 1 then [DOT] else [DOT, DOT]) + Spaces(8 - dots), Spaces(3))
  }

  /** The first sector of a new directory: the entries "." and "..", then zeros. */
  function DotSector(self: nat, parent: nat): (sector: seq<byte>)
    requires self < TWO32 && parent < TWO32
    ensures |sector| == 512
  {
    NewEntry(DotName(1), ATTR_DIR, self) + NewEntry(DotName(2), ATTR_DIR, parent) + Zeros(448)
  }

  /** The bytes of a directory just made: an entry "." for itself, one ".." for its parent, and zeros. */
  ghost predicate NewDirBytes(b: seq<byte>, self: nat, parent: nat) {
    && EntryPos(b, 0) && DotEntry(EntryAt(b, 0), [DOT, SPACE], self)
    && EntryPos(b, 32) && DotEntry(EntryAt(b, 32), [DOT, DOT], parent)
    && forall i :: 64 <= i < |b| ==> b[i] == 0
  }

  /** A directory's entry whose name is `start`, padded with spaces. */
  predicate DotEntry(e: Entry, start: seq<byte>, first: nat)
    requires |start| == 2
  {
    && e[..2] == start && (forall i :: 2 <= i < 11 ==> e[i] == SPACE)
    && AttrOf(e) == ATTR_DIR && FirstOf(e) == first && SizeOf(e) == 0
  }

  lemma DotsRead(bpc: nat, self: nat, parent: nat)
    requires self < TWO32 && parent < TWO32 && 512 <= bpc
    ensures NewDirBytes(Splice(Zeros(bpc), 0, DotSector(self, parent)), self, parent)
  {
    var b := Splice(Zeros(bpc), 0, DotSector(self, parent));
    DotEntries(bpc, self, parent, 0);
    DotEntries(bpc, self, parent, 32);
    DotNamed(1, self);
    DotNamed(2, parent);
    DotSectorEnd(self, parent);
  }

  lemma DotSectorEnd(self: nat, parent: nat)
    requires self < TWO32 && parent < TWO32
    ensures forall i :: 64 <= i < 512 ==> DotSector(self, parent)[i] == 0
  {}

  lemma DotNamed(dots: nat, first: nat)
    requires 1 <= dots <= 2 && first < TWO32
    ensures DotEntry(NewEntry(DotName(dots), ATTR_DIR, first), if dots == 1 then [DOT, SPACE] else [DOT, DOT], first)
  {
    NewEntryReads(DotName(dots), ATTR_DIR, first);
  }

  lemma DotEntries(bpc: nat, self: nat, parent: nat, q: nat)
    requires self < TWO32 && parent < TWO32 && 512 <= bpc && EntryPos(Splice(Zeros(bpc), 0, DotSector(self, parent)), q)
    ensures EntryAt(Splice(Zeros(bpc), 0, DotSector(self, parent)), q) ==
      if q == 0 then NewEntry(DotName(1), ATTR_DIR, self) else if q == 32 then NewEntry(DotName(2), ATTR_DIR, parent) else Zeros(ENTRY)
  {}

  /** None of them shows, and the zeros begin after the first two. */
  ghost predicate DotKind(e: Entry, q: nat) { !Shows(e) && !IsLongNamePart(e) && (e[0] == 0 <==> q >= 64) }

  lemma DotKinds(self: nat, parent: nat)
    requires self < TWO32 && parent < TWO32
    ensures DotKind(NewEntry(DotName(1), ATTR_DIR, self), 0) && DotKind(NewEntry(DotName(2), ATTR_DIR, parent), 32)
    ensures forall q: nat :: q >= 64 ==> DotKind(Zeros(ENTRY), q)
  {
    NewEntryReads(DotName(1), ATTR_DIR, self);
    NewEntryReads(DotName(2), ATTR_DIR, parent);
  }

  /** A scan finds nothing in a new directory. */
  lemma DotsHidden(bpc: nat, self: nat, parent: nat)
    requires self < TWO32 && parent < TWO32 && 512 <= bpc && bpc % ENTRY == 0
    ensures EmptyDir(Splice(Zeros(bpc), 0, DotSector(self, parent)))
  {
    hide NewEntry, DotName, DotSector, DotKind, Shows, IsLongNamePart, LfnFits;
    var b := Splice(Zeros(bpc), 0, DotSector(self, parent));
    DotKinds(self, parent);
    forall q: nat | EntryPos(b, q)
      ensures DotKind(EntryAt(b, q), q)
    {
      DotEntries(bpc, self, parent, q);
    }
    DottedIsEmpty(b);
  }

  lemma DottedIsEmpty(b: seq<byte>)
    requires |b| % ENTRY == 0 && forall q: nat :: EntryPos(b, q) ==> DotKind(EntryAt(b, q), q)
    ensures EmptyDir(b)
  {
    hide Shows, IsLongNamePart, LfnFits;
    forall q: nat | EntryPos(b, q)
      ensures !Shows(EntryAt(b, q)) && !IsLongNamePart(EntryAt(b, q)) && (b[q] == 0 <==> q >= 64)
    {
      assert EntryAt(b, q)[0] == b[q];
    }
  }

  /** Writes the first sector of a new directory. */
  method WriteDots(vol: Volume, c: nat, parent: nat)
    requires vol.Valid() && vol.g.Cluster(c) && parent < TWO32
    modifies vol`disk, vol.buf
    ensures vol.Valid() && vol.Fat() == old(vol.Fat()) && vol.Untouched() == old(vol.Untouched())
    ensures vol.Data() == old(vol.Data())[c := Splice(old(vol.Data())[c], 0, DotSector(c, parent))]
  {
    var lba := vol.g.Lba(c);
    LbaBounds(vol.g, vol.disk, c);
    vol.ZeroBuf();
    vol.CopyIn(0, NewEntry(DotName(1), ATTR_DIR, c));
    vol.CopyIn(32, NewEntry(DotName(2), ATTR_DIR, parent));
    vol.WriteSector(lba);
    DotsBuffer(NewEntry(DotName(1), ATTR_DIR, c), NewEntry(DotName(2), ATTR_DIR, parent), old(vol.disk)[lba]);
    SectorWritten(vol.g, old(vol.disk), c, 0, 0, DotSector(c, parent), vol.disk);
  }

  lemma DotsBuffer(a: Entry, b: Entry, sector: Sector)
    ensures Splice(Splice(Zeros(512), 0, a), 32, b) == Splice(sector, 0, a + b + Zeros(448))
  {}

  lemma {:induction false} OwnChainBytes(data: seq<seq<byte>>, c: nat)
    requires c < |data|
    ensures ChainBytes(data, [c]) == data[c]
  {
    assert [c][1..] == [];
    assert data[c] + [] == data[c];
  }

  lemma DirChainAdded(t: Tree, v: Cache, c: nat, b: seq<byte>)
    requires TreeSound(t) && CacheSound(t, v) && c !in t.store && c != 0 && EmptyDir(b)
    ensures var t' := PutChain(t, c, b).(dirs := t.dirs + {c});
      && TreeSound(t') && CacheSound(t', v) && SameEntries(t, t') && Unreferenced(t', c)
  {
    DirAdded(t, c, b);
    TreeStep(t, PutChain(t, c, b).(dirs := t.dirs + {c}), v);
  }

  lemma NewDirsKept(l: Ledger, c: nat, dirs: set<nat>)
    requires c !in l.chains
    ensures DirsKept(l.chains, NewChain(l, c).chains, dirs)
  {}

  /** The tree with a new directory that nothing refers to yet. */
  function WithDir(t: Tree, c: nat, b: seq<byte>): Tree { PutChain(t, c, b).(dirs := t.dirs + {c}) }

  /** The tree gained a directory below `parent`, with nothing in it, that nothing refers to yet. */
  ghost predicate DirGained(t: Tree, t': Tree, c: nat, parent: nat) {
    && c != 0 && c !in t.store && Unreferenced(t', c)
    && exists b :: EmptyDir(b) && NewDirBytes(b, c, parent) && t' == WithDir(t, c, b)
  }

  /** A cluster for a new directory, with its dot entries; 0 when none is free. */
  method AddDir(dr: Driver, parent: nat) returns (c: nat)
    requires dr.Valid() && parent < TWO32
    modifies dr`l, dr`tree, dr.vol`disk, dr.vol.buf
    ensures dr.Valid() && dr.vol.Untouched() == old(dr.vol.Untouched())
    ensures c == 0 ==> dr.tree == old(dr.tree) && dr.l == old(dr.l) && NoneFree(dr.vol) && |FreeIn(dr.l, dr.vol.g.Limit())| == 0
    ensures c != 0 ==> |FreeIn(dr.l, dr.vol.g.Limit())| + 1 == |FreeIn(old(dr.l), dr.vol.g.Limit())|
    ensures c != 0 ==>
      && c !in old(dr.l).chains && c !in old(dr.l).owner && c < TWO32 && dr.l == NewChain(old(dr.l), c)
      && SameEntries(old(dr.tree), dr.tree) && DirGained(old(dr.tree), dr.tree, c, parent)
  {
    hide TreeSound, CacheSound, Settled, Owned, Handles, NoneFree, DotSector, EmptyDir, NewDirBytes, IsStore, FreeIn;
    ghost var t, l0, v, bpc, fat := dr.tree, dr.l, dr.View(), dr.vol.g.BytesPerCluster(), dr.vol.Fat();
    c := dr.AllocChain();
    if c == 0 {
      FatRoom.NoneFreeIn(dr.vol, dr.l);
      return;
    }
    NewDirCosts(fat, l0, dr.vol.Fat(), c);
    NewDirsKept(l0, c, t.dirs);
    SettledFrame(l0.chains, dr.l.chains, bpc, t, v);
    BytesPerClusterAligned(dr.vol.g);
    DotsHidden(bpc, c, parent);
    DotsRead(bpc, c, parent);
    DirChainAdded(t, v, c, Splice(Zeros(bpc), 0, DotSector(c, parent)));
    FillDir(dr, t, c, parent);
  }

  /** Writing at the start of a chain of one cluster. */
  lemma OwnClusterWritten(fat: seq<nat>, data: seq<seq<byte>>, l: Ledger, c: nat, bs: seq<byte>, data': seq<seq<byte>>)
    requires Owned(fat, l) && |data| == |fat| && c in l.chains && l.chains[c] == [c] && c < |data| && |bs| <= |data[c]|
    requires data' == data[c := Splice(data[c], 0, bs)]
    ensures StoreOf(data', l.chains) == StoreOf(data, l.chains)[c := Splice(data[c], 0, bs)]
  {
    hide Owned, OnlyChain;
    OwnChainBytes(data', c);
    WrittenOnlyChain(fat, data, l, c, 0, 0, 0, bs, data');
    StoreStep(fat, c, data, l, data', l);
  }

  method FillDir(dr: Driver, ghost t: Tree, c: nat, parent: nat)
    requires dr.OnDisk() && dr.vol.g.Cluster(c) && parent < TWO32 && c in dr.l.chains && dr.l.chains[c] == [c] && t.root == dr.tree.root
    requires dr.tree == PutChain(t, c, Zeros(dr.vol.g.BytesPerCluster()))
    modifies dr`tree, dr.vol`disk, dr.vol.buf
    ensures dr.OnDisk() && dr.vol.Untouched() == old(dr.vol.Untouched())
    ensures c < TWO32 && dr.tree == WithDir(t, c, Splice(Zeros(dr.vol.g.BytesPerCluster()), 0, DotSector(c, parent)))
  {
    hide Owned, DotSector, OnlyChain, ChainBytes, LiesAt, StoreOf;
    ghost var data, bpc, fat := dr.vol.Data(), dr.vol.g.BytesPerCluster(), dr.vol.Fat();
    StoreAt(dr.vol, dr.l, dr.tree.store, c);
    OwnChainBytes(data, c);
    WriteDots(dr.vol, c, parent);
    OwnClusterWritten(fat, data, dr.l, c, DotSector(c, parent), dr.vol.Data());
    dr.tree := WithDir(t, c, Splice(Zeros(bpc), 0, DotSector(c, parent)));
  }

  /** `fat_free_chain` of a live chain. */
  method FreeChain(dr: Driver, f: nat, ghost strays: map<Slot, Ptr>)
    requires dr.OnDisk() && f in dr.l.chains
    modifies dr`l, dr`tree, dr.vol`disk, dr.vol.buf
    ensures dr.OnDisk() && dr.vol.Untouched() == old(dr.vol.Untouched())
    ensures dr.l == DropChain(old(dr.l), f) && dr.tree == DropTree(old(dr.tree), f, strays)
    ensures dr.vol.Fat() == Freed(old(dr.vol.Fat()), f)
  {
    ghost var fat := dr.vol.Fat();
    HeadInside(fat, dr.l, f);
    DropChainOwned(fat, dr.l, f);
    StoreDropped(dr.vol.Data(), dr.l, f);
    hide Owned;
    dr.vol.FatFreeChain(f);
    dr.l := DropChain(dr.l, f);
    dr.tree := DropTree(dr.tree, f, strays);
  }

  lemma HeadInside(fat: seq<nat>, l: Ledger, f: nat)
    requires Owned(fat, l) && f in l.chains
    ensures f < |fat| && LinksInside(fat)
  {
    ChainLink(fat, l.chains[f], 0);
  }

  // ---- The new entry and its node

  /** Names whose entry a scan shows: what comes before the last dot, if anything, starts neither with a dot nor with 0xE5. */
  predicate Showable(name: seq<byte>) {
    name == [] || LastDot(name) == 0 || (name[0] != DOT && name[0] != DELETED)
  }

  function AttrFor(isDir: bool): byte { if isDir then ATTR_DIR else ATTR_ARCHIVE }

  /** The entry made for a name shows up in a scan exactly for the showable names. */
  lemma MadeEntryShows(name: seq<byte>, isDir: bool, first: nat)
    requires 0 !in name && first < TWO32
    ensures var e := NewEntry(Made(name), AttrFor(isDir), first);
      && (Shows(e) <==> Showable(name)) && e[0] != 0 && AttrOf(e) != ATTR_LFN && !IsLongNamePart(e)
      && IsDir(e) == isDir && FirstOf(e) == first && SizeOf(e) == 0 && NameOf(e) == CStr(Parsed(Made(name)))
  {
    NewEntryReads(Made(name), AttrFor(isDir), first);
    MadeIsPlain(name);
    MadeFirstByte(name);
  }

  /** The entry's first byte is that of the name in capitals, or a space if nothing comes before the last dot. */
  lemma MadeFirstByte(name: seq<byte>)
    ensures Made(name).base[0] == if name == [] || LastDot(name) == 0 then SPACE else Upper(name[0])
  {}

  /** For instance, ".foo" is shown, as an entry without a base name, but ".a.b" is not. */
  lemma DottedNames()
    ensures Showable([DOT, 102, 111, 111]) && !Showable([DOT, 97, DOT, 98])
  {
    LastDotAt([DOT, 102, 111, 111], 0);
    LastDotAt([DOT, 97, DOT, 98], 2);
  }

  lemma LastDotAt(s: seq<byte>, k: nat)
    requires k < |s| && s[k] == DOT && forall i :: k < i < |s| ==> s[i] != DOT
    ensures LastDot(s) == k
  {}

  lemma FreeIsVacant(t: Tree, c: Cache, s: Slot)
    requires CacheSound(t, c) && Inside(t, s) && IsFree(t.store[s.dir][s.pos])
    ensures !Seen(t, s) && (Vacant(c, s) || s in t.wild)
  {
    if s !in t.wild {
      forall q | q in c.nodes && q != ROOT && q in c.at
        ensures c.at[q] != s
      {
        assert NodeSound(t, c, q);
      }
    }
  }

  /** What it takes for entry `e` to go into free slot `s` of directory `d`, with node `n` for it. */
  ghost predicate CreateStep(t: Tree, v: Cache, d: Ptr, s: Slot, e: Entry, p: Ptr, n: Node) {
    && TreeSound(t) && CacheSound(t, v) && InDir(t, v.nodes, d, s)
    && IsFree(t.store[s.dir][s.pos]) && AllTaken(t.store[s.dir], s.pos)
    && e[0] != 0 && AttrOf(e) != ATTR_LFN && SizeOf(e) == 0 && (IsDir(e) <==> FirstOf(e) != 0)
    && (FirstOf(e) != 0 ==> FirstOf(e) in t.store && FirstOf(e) in t.dirs && FirstOf(e) != t.root && Unused(t, v, FirstOf(e)))
    && p != NULL && (forall q :: q in v.nodes ==> q < p) && Matches(n, e) && n.parent == d && n.children == []
  }

  /** Neither an entry nor a node has chain `f`. */
  ghost predicate Unused(t: Tree, v: Cache, f: nat) { Unreferenced(t, f) && forall q :: q in v.nodes ==> v.nodes[q].first != f }

  /** The node, if it alone will know its chain: its entry is hidden, or in a slot that such an entry had. */
  ghost function Knower(t: Tree, s: Slot, e: Entry, p: Ptr): nat { if Shows(e) && s !in t.wild then 0 else p }

  /** The tree once the new entry is in its slot. */
  ghost function CreateTree(t: Tree, d: Ptr, s: Slot, e: Entry, p: Ptr): Tree
    requires Inside(t, s)
  {
    var t1 := PutEntry(t, s, e, FirstOf(e), Knower(t, s, e, p));
    if Knower(t, s, e, p) == 0 then t1 else Spoil(t1, s, d)
  }

  lemma SeenCreated(t: Tree, d: Ptr, s: Slot, e: Entry, p: Ptr, r: Slot)
    requires Inside(t, s)
    ensures var t' := CreateTree(t, d, s, e, p);
      && t'.root == t.root && t'.dirs == t.dirs && (Inside(t', r) <==> Inside(t, r))
      && (Inside(t, r) ==> EntryOf(t', r) == if r == s then e else EntryOf(t, r))
      && (r != s ==> (Seen(t', r) <==> Seen(t, r)))
      && (r in t'.wild <==> r in t.wild || (r == s && p != 0 && !Shows(e)))
  {
    SeenAfterPut(t, s, e, FirstOf(e), Knower(t, s, e, p), r);
  }

  lemma EntryCreated(t: Tree, v: Cache, d: Ptr, s: Slot, e: Entry, p: Ptr, n: Node)
    requires CreateStep(t, v, d, s, e, p, n)
    ensures TreeSound(CreateTree(t, d, s, e, p)) && AddStep(CreateTree(t, d, s, e, p), v, d, p, s, n)
  {
    EntryPutSound(t, v, d, s, e, p, n);
    SeenCreated(t, d, s, e, p, s);
    FreeIsVacant(t, v, s);
  }

  lemma EntryPutSound(t: Tree, v: Cache, d: Ptr, s: Slot, e: Entry, p: Ptr, n: Node)
    requires CreateStep(t, v, d, s, e, p, n)
    ensures TreeSound(CreateTree(t, d, s, e, p)) && CacheSound(CreateTree(t, d, s, e, p), v)
  {
    var only := Knower(t, s, e, p);
    var t1 := PutEntry(t, s, e, FirstOf(e), only);
    FreeIsVacant(t, v, s);
    EntryPut(t, s, e, FirstOf(e), only);
    VacantWritten(t, v, s, e, FirstOf(e), only);
    SeenAfterPut(t, s, e, FirstOf(e), only, s);
    if only != 0 {
      assert EntryOf(t1, s)[0] == t1.store[s.dir][s.pos];
      Spoiled(t1, s, d);
      SpoiledVacant(t1, v, s, d);
    }
  }

  /** The new entry shows, has the name of its node, and the node is listed. */
  ghost predicate Agreeable(v: Cache, d: Ptr, e: Entry, n: Node)
    requires d in v.nodes
  {
    Shows(e) && n.name == NameOf(e) && InStep(n) && |v.nodes[d].children| < MAX_CHILDREN
  }

  lemma CreatedComplete(t: Tree, v: Cache, d: Ptr, s: Slot, e: Entry, p: Ptr, n: Node, x: Ptr)
    requires CreateStep(t, v, d, s, e, p, n) && x in v.nodes && v.nodes[x].isDir && Complete(t, v, x)
    requires x == d && Shows(e) ==> |v.nodes[d].children| < MAX_CHILDREN
    ensures Complete(CreateTree(t, d, s, e, p), AddNode(v, d, p, s, n), x)
  {
    EntryCreated(t, v, d, s, e, p, n);
    var t' := CreateTree(t, d, s, e, p);
    SeenCreated(t, d, s, e, p, s);
    forall r | Seen(t', r) && r != s && r.dir == HeadOf(t.root, v.nodes[x])
      ensures HeldBy(v, x, r)
    {
      SeenCreated(t, d, s, e, p, r);
      assert Seen(t, r);
    }
    if s.dir == HeadOf(t.root, v.nodes[x]) { HeadUnique(t, v, x, d); }
    AddedComplete(t', v, d, p, s, n, x);
  }

  lemma CreatedNames(t: Tree, v: Cache, d: Ptr, s: Slot, e: Entry, p: Ptr, n: Node, x: Ptr)
    requires CreateStep(t, v, d, s, e, p, n) && x in v.nodes && v.nodes[x].isDir && NamesAgree(t, v, x)
    requires x == d ==> n.name == NameOf(e) && InStep(n) && s !in t.wild
    ensures NamesAgree(CreateTree(t, d, s, e, p), AddNode(v, d, p, s, n), x)
  {
    EntryCreated(t, v, d, s, e, p, n);
    FreeIsVacant(t, v, s);
    if s.dir == HeadOf(t.root, v.nodes[x]) { HeadUnique(t, v, x, d); }
    VacantNames(t, v, s, e, FirstOf(e), Knower(t, s, e, p), x);
    SeenCreated(t, d, s, e, p, s);
    AddedNames(CreateTree(t, d, s, e, p), v, d, p, s, n, x);
  }

  /** The directories whose children agree with a scan after a new entry: `d` itself only if the entry is agreeable. */
  lemma CreatedTracked(t: Tree, v: Cache, d: Ptr, s: Slot, e: Entry, p: Ptr, n: Node, x: Ptr)
    requires CreateStep(t, v, d, s, e, p, n) && Tracked(t, v, x) && (x == d ==> Agreeable(v, d, e, n))
    ensures Tracked(CreateTree(t, d, s, e, p), AddNode(v, d, p, s, n), x)
  {
    hide Complete, NamesAgree, Scan, CreateTree, CreateStep, TreeSound, CacheSound, PlainDir, NoWildIn, Shows, NameOf;
    SlotOfDir(t, v, d, s, e, p, n, x);
    CreatedPlain(t, v, d, s, e, p, n, HeadOf(t.root, v.nodes[x]));
    if v.nodes[x].loaded {
      CreatedComplete(t, v, d, s, e, p, n, x);
      CreatedNames(t, v, d, s, e, p, n, x);
    }
  }

  lemma SlotOfDir(t: Tree, v: Cache, d: Ptr, s: Slot, e: Entry, p: Ptr, n: Node, x: Ptr)
    requires CreateStep(t, v, d, s, e, p, n) && x in v.nodes && v.nodes[x].isDir && NoWildIn(t, HeadOf(t.root, v.nodes[x]))
    ensures Inside(t, s) && d in v.nodes && v.nodes[d].loaded && d != p && x != p
    ensures (HeadOf(t.root, v.nodes[x]) == s.dir ==> x == d) && (x == d ==> s !in t.wild)
  {
    if HeadOf(t.root, v.nodes[x]) == s.dir { HeadUnique(t, v, x, d); }
  }

  lemma CreatedPlain(t: Tree, v: Cache, d: Ptr, s: Slot, e: Entry, p: Ptr, n: Node, h: nat)
    requires CreateStep(t, v, d, s, e, p, n) && PlainDir(t, h) && NoWildIn(t, h) && (h == s.dir ==> Shows(e))
    ensures var t' := CreateTree(t, d, s, e, p); t'.root == t.root && PlainDir(t', h) && NoWildIn(t', h) && (h != s.dir ==> t'.store[h] == t.store[h])
  {
    var t' := CreateTree(t, d, s, e, p);
    EntryPutSound(t, v, d, s, e, p, n);
    if h == s.dir { NoLongNamesSet(t.store[h], s.pos, e); }
    forall r | r in t'.wild
      ensures r.dir != h
    {
      SeenCreated(t, d, s, e, p, r);
    }
  }

  /** Otherwise `d` no longer agrees with a scan. */
  lemma CreatedUntracked(t: Tree, v: Cache, d: Ptr, s: Slot, e: Entry, p: Ptr, n: Node)
    requires CreateStep(t, v, d, s, e, p, n) && !Agreeable(v, d, e, n)
    ensures !Tracked(CreateTree(t, d, s, e, p), AddNode(v, d, p, s, n), d)
  {
    var t', v' := CreateTree(t, d, s, e, p), AddNode(v, d, p, s, n);
    SeenCreated(t, d, s, e, p, s);
    if Shows(e) {
      if |v.nodes[d].children| >= MAX_CHILDREN {
        assert ChildrenSound(v.nodes, d) && p !in v'.nodes[d].children;
        assert Seen(t', s) && !HeldBy(v', d, s);
      } else {
        assert (v.nodes[d].children + [p])[|v.nodes[d].children|] == p;
        assert p in v'.nodes[d].children;
      }
    }
  }

  /** Unless it shows in a directory that was full, the new entry leaves every directory as complete as it was. */
  lemma CreatedSmall(t: Tree, v: Cache, d: Ptr, s: Slot, e: Entry, p: Ptr, n: Node)
    requires CreateStep(t, v, d, s, e, p, n) && !n.loaded && (!Shows(e) || |v.nodes[d].children| < MAX_CHILDREN)
    ensures StaysSmall(t, v, CreateTree(t, d, s, e, p), AddNode(v, d, p, s, n))
  {
    hide Complete, CacheSound, TreeSound, Matches, Unused, AllTaken, Shows;
    var t', v' := CreateTree(t, d, s, e, p), AddNode(v, d, p, s, n);
    NodesBelow(v, p);
    forall x | x in v.nodes && v.nodes[x].isDir && Complete(t, v, x)
      ensures Complete(t', v', x)
    {
      CreatedComplete(t, v, d, s, e, p, n, x);
    }
    forall h | h in t'.dirs && NotLoaded(v', t'.root, h)
      ensures h in t'.store && h in t.dirs && NotLoaded(v, t.root, h) && h in t.store && t'.store[h] == t.store[h]
    {
      assert HeadOf(t.root, v'.nodes[d]) == s.dir;
      DirsInStore(t, h);
      forall x | x in v.nodes && v.nodes[x].isDir && v.nodes[x].loaded
        ensures HeadOf(t.root, v.nodes[x]) != h
      {
        assert x in v'.nodes && HeadOf(t.root, v'.nodes[x]) == HeadOf(t.root, v.nodes[x]);
      }
    }
    SmallKept(t, v, t', v');
  }

  lemma NodesBelow(v: Cache, p: Ptr)
    requires forall q :: q in v.nodes ==> q < p
    ensures p !in v.nodes
  {}

  lemma CreatedOverfull(t: Tree, v: Cache, d: Ptr, s: Slot, e: Entry, p: Ptr, n: Node)
    requires CreateStep(t, v, d, s, e, p, n) && Shows(e) && |v.nodes[d].children| >= MAX_CHILDREN
    ensures !SmallDirs(CreateTree(t, d, s, e, p), AddNode(v, d, p, s, n))
  {
    hide TreeSound, Unused, AllTaken, FitsCache;
    var t', v' := CreateTree(t, d, s, e, p), AddNode(v, d, p, s, n);
    SeenCreated(t, d, s, e, p, s);
    assert ChildrenSound(v.nodes, d) && p !in v'.nodes[d].children;
    assert Seen(t', s) && !HeldBy(v', d, s);
    assert !Complete(t', v', d);
  }

  lemma CreatedTidy(t: Tree, d: Ptr, s: Slot, e: Entry, p: Ptr)
    requires Inside(t, s) && p != NULL
    ensures Tidy(t) ==> (Tidy(CreateTree(t, d, s, e, p)) <==> Shows(e))
  {
    if !Shows(e) { assert s in CreateTree(t, d, s, e, p).wild; }
  }

  lemma AllCreatedTracked(t: Tree, v: Cache, d: Ptr, s: Slot, e: Entry, p: Ptr, n: Node)
    requires CreateStep(t, v, d, s, e, p, n)
    ensures KeepTrack(t, v, CreateTree(t, d, s, e, p), AddNode(v, d, p, s, n), LostBy(d, Agreeable(v, d, e, n)))
    ensures Tracked(t, v, d) ==> (Tracked(CreateTree(t, d, s, e, p), AddNode(v, d, p, s, n), d) <==> Agreeable(v, d, e, n))
  {
    hide CreateStep, CreateTree, AddNode, Tracked, Agreeable;
    StepDir(t, v, d, s, e, p, n);
    forall x | Tracked(t, v, x) && (x != d || Agreeable(v, d, e, n))
      ensures Tracked(CreateTree(t, d, s, e, p), AddNode(v, d, p, s, n), x)
    {
      CreatedTracked(t, v, d, s, e, p, n, x);
    }
    if !Agreeable(v, d, e, n) { CreatedUntracked(t, v, d, s, e, p, n); }
  }

  lemma StepDir(t: Tree, v: Cache, d: Ptr, s: Slot, e: Entry, p: Ptr, n: Node)
    requires CreateStep(t, v, d, s, e, p, n)
    ensures d in v.nodes && Inside(t, s) && (FirstOf(e) != 0 ==> FirstOf(e) in t.store) && p != NULL
  {}

  /** The directories that may no longer agree with the disk: `d`, if its new entry does not. */
  function LostBy(d: Ptr, agrees: bool): set<Ptr> { if agrees then {} else {d} }

  /** A node has the name that a scan gives its new entry exactly when that is a lower-case 8.3 name. */
  lemma NameComesBack(name: seq<byte>)
    requires 0 !in name
    ensures NodeName(name) == CStr(Parsed(Made(name))) <==> KeepsName(name)
  {
    hide Fits83, Made;
    MadeThenParsed(name);
    ParsedIsPlain(name);
    NoZeroIsCStr(Parsed(Made(name)));
    if Fits83(name) { FittingIsShort(name); } else { LongNameShortened(name); }
  }

  lemma FittingIsShort(name: seq<byte>)
    requires Fits83(name)
    ensures |name| <= 12
  {}

  lemma ParsedIsPlain(name: seq<byte>)
    requires 0 !in name
    ensures 0 !in Parsed(Made(name)) && |Parsed(Made(name))| <= 12
  {
    MadeIsPlain(name);
    hide Made;
    var n := Made(name);
    assert 0 !in Lowers(Trim(n.base)) && 0 !in Lowers(Trim(n.ext));
  }

  /** Every file's chain keeps its bytes. */
  ghost predicate FilesKept(t: Tree, t': Tree) {
    forall h :: h in t.store && h !in t.dirs ==> h in t'.store && t'.store[h] == t.store[h]
  }

  /** A node as `fat32_create` makes it. */
  function CreatedNode(name: seq<byte>, isDir: bool, first: nat, cluster: nat, direntOff: nat, d: Ptr): Node {
    Node(NodeName(name), isDir, 0, first, 0, cluster, direntOff, d, [], false)
  }

  /** Slot `s` had no entry to show and now has one, if it is shown at all; every other entry is as it was. */
  ghost predicate EntriesGained(t: Tree, t': Tree, s: Slot, shown: bool) {
    && (forall r :: Seen(t', r) ==> Seen(t, r) || r == s)
    && (forall r :: Inside(t, r) && r != s ==> Inside(t', r) && EntryOf(t', r) == EntryOf(t, r))
    && !Seen(t, s) && (Seen(t', s) <==> shown)
  }

  /** Slot `s` was free, or is new, and is the first that is. */
  ghost predicate FirstFree(t: Tree, t': Tree, s: Slot) {
    (Inside(t, s) ==> IsFree(EntryOf(t, s)[0])) && s.dir in t'.store && AllTaken(t'.store[s.dir], s.pos)
  }

  /** The node's entry on disk is the one made for `name`. */
  ghost predicate EntryMade(t: Tree, v: Cache, p: Ptr, name: seq<byte>, isDir: bool) {
    && p in v.nodes && p in v.at && v.nodes[p].first < TWO32 && Inside(t, v.at[p])
    && EntryOf(t, v.at[p]) == NewEntry(Made(name), AttrFor(isDir), v.nodes[p].first)
  }

  /** Directory `d` lists node `p`, a scan shows its entry, and gives it the name the node has. */
  ghost predicate Agrees(nodes: map<Ptr, Node>, d: Ptr, p: Ptr, name: seq<byte>) {
    d in nodes && p in nodes[d].children && KeepsName(name) && Showable(name)
  }

  /** Every chain but that of `head` keeps its bytes. */
  ghost predicate OnlyDirWritten(t: Tree, t': Tree, head: nat) {
    forall h :: h in t.store && h != head ==> h in t'.store && t'.store[h] == t.store[h]
  }

  /** Directory `d` has a new entry and node `p` for it. */
  ghost predicate EntryAdded(t: Tree, v: Cache, t': Tree, v': Cache, d: Ptr, p: Ptr, name: seq<byte>, isDir: bool, first: nat) {
    && p != NULL && Adopted(v.nodes, v'.nodes, d, p, name, isDir) && v'.nodes[p].first == first
    && p in v'.at && v'.at[p].dir == HeadOf(t.root, v.nodes[d])
    && EntryMade(t', v', p, name, isDir) && EntriesGained(t, t', v'.at[p], Showable(name)) && FirstFree(t, t', v'.at[p])
    && FilesKept(t, t') && t'.root == t.root && t'.dirs == t.dirs && PlacesKept(v, v')
    && OnlyDirWritten(t, t', HeadOf(t.root, v.nodes[d]))
    && KeepTrack(t, v, t', v', LostBy(d, Agrees(v'.nodes, d, p, name)))
    && (Tracked(t, v, d) ==> (Tracked(t', v', d) <==> Agrees(v'.nodes, d, p, name)))
    && (AllReferred(t, first) ==> (AllReferred(t', 0) <==> !isDir || Showable(name)))
    && (SmallDirs(t, v) ==> (SmallDirs(t', v') <==> (Showable(name) ==> p in v'.nodes[d].children)))
    && (Tidy(t) ==> (Tidy(t') <==> Showable(name)))
    && (isDir && first in t.store && EmptyDir(t.store[first]) ==> Tracked(t', v', p))
  }

  /** Node `p` is what `fat32_create` makes for `name`, and the last child of `d` if there was room; nothing else differs. */
  ghost predicate Adopted(nodes: map<Ptr, Node>, nodes': map<Ptr, Node>, d: Ptr, p: Ptr, name: seq<byte>, isDir: bool) {
    && p !in nodes && d in nodes && p in nodes' && nodes' == Adopt(nodes, d, p, nodes'[p])
    && nodes'[p] == CreatedNode(name, isDir, nodes'[p].first, nodes'[p].dirCluster, nodes'[p].direntOff, d)
    && (isDir <==> nodes'[p].first != 0)
  }

  /** Fills the free slot with the new entry, and adds its node. */
  method Enter(dr: Driver, d: Ptr, name: seq<byte>, isDir: bool, first: nat, cluster: nat, off: nat, ghost s: Slot) returns (p: Ptr)
    requires dr.Valid() && d in dr.nodes && dr.nodes[d].isDir && dr.nodes[d].loaded
    requires s.dir == HeadOf(dr.tree.root, dr.nodes[d]) && FreeSlot(dr, s, cluster, off)
    requires 0 !in name && first < TWO32 && (isDir <==> first != 0)
    requires isDir ==> first in dr.tree.store && first in dr.tree.dirs && first != dr.tree.root && Unused(dr.tree, dr.View(), first)
    modifies dr`nodes, dr`nextPtr, dr`at, dr`holder, dr`tree, dr.vol`disk, dr.vol.buf
    ensures dr.Valid() && dr.vol.Untouched() == old(dr.vol.Untouched())
    ensures EntryAdded(old(dr.tree), old(dr.View()), dr.tree, dr.View(), d, p, name, isDir, first)
  {
    hide TreeSound, CacheSound, Settled, Owned, Handles, IsStore, Lies, CreateTree, Unused, AllTaken, AddNode, NewEntry, EntryOffset,
         EntryAdded, Adopt;
    ghost var t, v := dr.tree, dr.View();
    p := dr.nextPtr;
    var direntOff := EntryOffset(dr.vol.g, cluster, off);
    OffsetRecovered(dr.vol.g, cluster, off);
    var n := CreatedNode(name, isDir, first, cluster, direntOff, d);
    EnterFacts(t, v, d, s, name, isDir, first, p, n);
    SettledAdd(dr.l.chains, dr.vol.g.BytesPerCluster(), v, d, p, s, n);
    FillSlot(dr, d, name, isDir, first, cluster, off, s, p);
    RecordNode(dr, d, n, s);
  }

  method FillSlot(dr: Driver, ghost d: Ptr, name: seq<byte>, isDir: bool, first: nat, cluster: nat, off: nat, ghost s: Slot, ghost p: Ptr)
    requires dr.OnDisk() && FreeSlot(dr, s, cluster, off) && first < TWO32
    modifies dr`tree, dr.vol`disk, dr.vol.buf
    ensures dr.OnDisk() && dr.vol.Untouched() == old(dr.vol.Untouched())
    ensures dr.tree == CreateTree(old(dr.tree), d, s, NewEntry(Made(name), AttrFor(isDir), first), p)
  {
    hide Owned, IsStore, Lies, PutBytes, AllTaken, Showable, NewEntry;
    var short := NewShortName(name);
    EditNew(dr.vol, cluster, off, short, AttrFor(isDir), first, dr.l, s, dr.tree);
    dr.tree := CreateTree(dr.tree, d, s, NewEntry(Made(name), AttrFor(isDir), first), p);
  }

  method RecordNode(dr: Driver, d: Ptr, n: Node, ghost s: Slot)
    requires d in dr.nodes
    modifies dr`nodes, dr`nextPtr, dr`at, dr`holder
    ensures dr.View() == AddNode(old(dr.View()), d, old(dr.nextPtr), s, n)
    ensures dr.nodes == Adopt(old(dr.nodes), d, old(dr.nextPtr), n) && dr.nextPtr == old(dr.nextPtr) + 1
  {
    dr.at := dr.at[dr.nextPtr := s];
    dr.holder := dr.holder[s := dr.nextPtr];
    dr.nodes := Adopt(dr.nodes, d, dr.nextPtr, n);
    dr.nextPtr := dr.nextPtr + 1;
  }

  lemma EnterFacts(t: Tree, v: Cache, d: Ptr, s: Slot, name: seq<byte>, isDir: bool, first: nat, p: Ptr, n: Node)
    requires TreeSound(t) && CacheSound(t, v)
    requires d in v.nodes && v.nodes[d].isDir && v.nodes[d].loaded && s.dir == HeadOf(t.root, v.nodes[d])
    requires Inside(t, s) && IsFree(t.store[s.dir][s.pos]) && AllTaken(t.store[s.dir], s.pos)
    requires 0 !in name && first < TWO32 && (isDir <==> first != 0)
    requires isDir ==> first in t.store && first in t.dirs && first != t.root && Unused(t, v, first)
    requires Handles(v.nodes, p)
    requires n == CreatedNode(name, isDir, first, n.dirCluster, n.direntOff, d)
    ensures p != NULL && p !in v.nodes && Handles(Adopt(v.nodes, d, p, n), p + 1)
    ensures var t', v' := CreateTree(t, d, s, NewEntry(Made(name), AttrFor(isDir), first), p), AddNode(v, d, p, s, n);
      && TreeSound(t') && CacheSound(t', v') && EntryAdded(t, v, t', v', d, p, name, isDir, first)
  {
    var e := NewEntry(Made(name), AttrFor(isDir), first);
    MadeEntryShows(name, isDir, first);
    RootBelow(t, v, p);
    HandlesAdd(v.nodes, p, d, n);
    NameComesBack(name);
    hide TreeSound, CacheSound, Unused, AllTaken, NewEntry, EntryAdded, AddNode, Adopt, CreateTree, Inside, NameOf, Made,
         Parsed, CStr, Showable;
    EntryCreated(t, v, d, s, e, p, n);
    NodeAdded(CreateTree(t, d, s, e, p), v, d, p, s, n);
    EntryEntered(t, v, d, s, e, p, n, name, isDir, first);
  }

  lemma EntryEntered(t: Tree, v: Cache, d: Ptr, s: Slot, e: Entry, p: Ptr, n: Node, name: seq<byte>, isDir: bool, first: nat)
    requires CreateStep(t, v, d, s, e, p, n) && first == FirstOf(e) && (isDir <==> first != 0)
    requires (n.name == NameOf(e) <==> KeepsName(name)) && (Shows(e) <==> Showable(name))
    requires n == CreatedNode(name, isDir, first, n.dirCluster, n.direntOff, d)
    requires first < TWO32 && e == NewEntry(Made(name), AttrFor(isDir), first)
    ensures EntryAdded(t, v, CreateTree(t, d, s, e, p), AddNode(v, d, p, s, n), d, p, name, isDir, first)
  {
    hide TreeSound, CacheSound, KeepTrack, Unused, AllTaken, FilesKept, AllReferred, Tracked, EmptyDir, Shows, IsDir, FirstOf, SizeOf,
         NameOf, CreateStep, Adopted, Adopt, Inside, KeepsName, EntryMade, EntriesGained, NewEntry, Made, Showable, CreateTree, Agrees, AddNode,
         SmallDirs, Tidy, FirstFree, PlacesKept;
    StepDir(t, v, d, s, e, p, n);
    EntryGained(t, v, d, s, e, p, n, name, isDir);
    SlotWasFirst(t, v, d, s, e, p, n);
    if isDir && EmptyDir(t.store[first]) { EmptyEntered(t, v, d, s, e, p, n); }
    EntryReferred(t, v, d, s, e, p, n);
    DirFilesKept(t, d, s, e, p);
    AllCreatedTracked(t, v, d, s, e, p, n);
    SmallIff(t, v, d, s, e, p, n);
    CreatedTidy(t, d, s, e, p);
    AgreesIff(t, v, d, s, e, p, n, name);
    AdoptedHere(v, d, s, p, n, name, isDir);
  }

  lemma SmallIff(t: Tree, v: Cache, d: Ptr, s: Slot, e: Entry, p: Ptr, n: Node)
    requires CreateStep(t, v, d, s, e, p, n) && !n.loaded
    ensures var t', v' := CreateTree(t, d, s, e, p), AddNode(v, d, p, s, n);
      d in v'.nodes && (SmallDirs(t, v) ==> (SmallDirs(t', v') <==> (Shows(e) ==> p in v'.nodes[d].children)))
  {
    hide SmallDirs, CreateTree, TreeSound, Unused, AllTaken, Shows;
    assert ChildrenSound(v.nodes, d);
    assert (v.nodes[d].children + [p])[|v.nodes[d].children|] == p;
    if Shows(e) && |v.nodes[d].children| >= MAX_CHILDREN {
      CreatedOverfull(t, v, d, s, e, p, n);
    } else {
      CreatedSmall(t, v, d, s, e, p, n);
    }
  }

  lemma AgreesIff(t: Tree, v: Cache, d: Ptr, s: Slot, e: Entry, p: Ptr, n: Node, name: seq<byte>)
    requires CreateStep(t, v, d, s, e, p, n) && (n.name == NameOf(e) <==> KeepsName(name)) && (Shows(e) <==> Showable(name)) && InStep(n)
    ensures Agrees(AddNode(v, d, p, s, n).nodes, d, p, name) <==> Agreeable(v, d, e, n)
    ensures p !in v.nodes && d != p
  {
    hide KeepsName, Showable, Shows, NameOf;
    assert ChildrenSound(v.nodes, d);
    assert (v.nodes[d].children + [p])[|v.nodes[d].children|] == p;
  }

  lemma EntryGained(t: Tree, v: Cache, d: Ptr, s: Slot, e: Entry, p: Ptr, n: Node, name: seq<byte>, isDir: bool)
    requires CreateStep(t, v, d, s, e, p, n) && (Shows(e) <==> Showable(name))
    requires n.first < TWO32 && e == NewEntry(Made(name), AttrFor(isDir), n.first)
    ensures EntryMade(CreateTree(t, d, s, e, p), AddNode(v, d, p, s, n), p, name, isDir)
    ensures EntriesGained(t, CreateTree(t, d, s, e, p), s, Showable(name)) && AddNode(v, d, p, s, n).at[p] == s
  {
    hide NewEntry, Made, Shows, Showable, CreateTree, TreeSound, CacheSound, Unused, AllTaken, Matches;
    FreeIsVacant(t, v, s);
    forall r
      ensures Seen(CreateTree(t, d, s, e, p), r) ==> Seen(t, r) || r == s
      ensures Inside(t, r) && r != s ==> Inside(CreateTree(t, d, s, e, p), r) && EntryOf(CreateTree(t, d, s, e, p), r) == EntryOf(t, r)
    {
      SeenCreated(t, d, s, e, p, r);
    }
    SeenCreated(t, d, s, e, p, s);
  }

  lemma SlotWasFirst(t: Tree, v: Cache, d: Ptr, s: Slot, e: Entry, p: Ptr, n: Node)
    requires CreateStep(t, v, d, s, e, p, n)
    ensures FirstFree(t, CreateTree(t, d, s, e, p), s) && s.dir == HeadOf(t.root, v.nodes[d])
  {
    var b, b' := t.store[s.dir], CreateTree(t, d, s, e, p).store[s.dir];
    assert EntryOf(t, s)[0] == b[s.pos];
    forall q: nat | EntryPos(b', q) && q < s.pos
      ensures !IsFree(b'[q])
    {
      FirstByteSet(b, s.pos, e, q);
    }
  }

  lemma AdoptedHere(v: Cache, d: Ptr, s: Slot, p: Ptr, n: Node, name: seq<byte>, isDir: bool)
    requires d in v.nodes && p !in v.nodes && n == CreatedNode(name, isDir, n.first, n.dirCluster, n.direntOff, d)
    requires (isDir <==> n.first != 0)
    ensures Adopted(v.nodes, AddNode(v, d, p, s, n).nodes, d, p, name, isDir) && AddNode(v, d, p, s, n).nodes[p] == n
    ensures p in AddNode(v, d, p, s, n).at
    ensures PlacesKept(v, AddNode(v, d, p, s, n))
  {}

  /** Only an entry that a scan shows keeps a new directory's chain from being lost. */
  lemma EntryReferred(t: Tree, v: Cache, d: Ptr, s: Slot, e: Entry, p: Ptr, n: Node)
    requires CreateStep(t, v, d, s, e, p, n)
    ensures AllReferred(t, FirstOf(e)) ==> (AllReferred(CreateTree(t, d, s, e, p), 0) <==> FirstOf(e) == 0 || Shows(e))
  {
    hide AllReferred;
    FreeIsVacant(t, v, s);
    SpoilLosesNone(PutEntry(t, s, e, FirstOf(e), Knower(t, s, e, p)), s, d);
    if AllReferred(t, FirstOf(e)) {
      RootIsNotZero(t);
      ReferredAfterPut(t, s, e, FirstOf(e), Knower(t, s, e, p));
    }
  }

  lemma RootIsNotZero(t: Tree)
    requires TreeSound(t)
    ensures t.root != 0
  {}

  lemma SpoilLosesNone(t: Tree, s: Slot, d: Ptr)
    ensures AllReferred(Spoil(t, s, d), 0) <==> AllReferred(t, 0)
  {
    forall h
      ensures Referred(Spoil(t, s, d), h) <==> Referred(t, h)
    {
      forall r
        ensures RefersTo(Spoil(t, s, d), r, h) <==> RefersTo(t, r, h)
      {}
    }
  }

  /** A new directory agrees with the disk: it is empty. */
  lemma EmptyEntered(t: Tree, v: Cache, d: Ptr, s: Slot, e: Entry, p: Ptr, n: Node)
    requires CreateStep(t, v, d, s, e, p, n) && n.isDir && !n.loaded && n.first in t.store && EmptyDir(t.store[n.first])
    ensures Tracked(CreateTree(t, d, s, e, p), AddNode(v, d, p, s, n), p)
  {
    HeadDiffers(t, v, d, n.first);
    var t' := CreateTree(t, d, s, e, p);
    forall r | r in t'.wild
      ensures r.dir != n.first
    {
      SeenCreated(t, d, s, e, p, r);
      if r in t.wild { HeadDiffers(t, v, t.wild[r], n.first); }
    }
    EmptyTracked(t', AddNode(v, d, p, s, n), p, n.first);
  }

  /** A directory in the cache is not one that nothing refers to. */
  lemma HeadDiffers(t: Tree, v: Cache, d: Ptr, f: nat)
    requires d in v.nodes && f != t.root && f != 0 && Unused(t, v, f)
    ensures HeadOf(t.root, v.nodes[d]) != f
  {}

  lemma DirFilesKept(t: Tree, d: Ptr, s: Slot, e: Entry, p: Ptr)
    requires Inside(t, s)
    ensures var t' := CreateTree(t, d, s, e, p); FilesKept(t, t') && t'.root == t.root && t'.dirs == t.dirs && OnlyDirWritten(t, t', s.dir)
  {}

  /** `make_83_name` into the two name fields. */
  method NewShortName(name: seq<byte>) returns (n: ShortName)
    ensures n == Made(name)
  {
    var base, ext := new byte[8](_ => 0), new byte[3](_ => 0);
    MakeName(name, base, ext);
    n := ShortName(base[..], ext[..]);
  }

  // ---- fat32_create

  /** Directory `d` can list one more child. */
  ghost predicate HasRoom(dr: Driver, d: Ptr)
    requires d in dr.nodes
    reads dr
  {
    if dr.nodes[d].loaded then |dr.nodes[d].children| < MAX_CHILDREN else
    var head := HeadOf(dr.tree.root, dr.nodes[d]);
    head in dr.tree.store && LongNamesFit(dr.tree.store[head]) && |Scan(dr.tree.store[head], 0, Idle)| < MAX_CHILDREN
  }

  /** The node of a file or directory just created in `d`, which lists it if there was room. */
  ghost predicate Created(nodes: map<Ptr, Node>, d: Ptr, p: Ptr, name: seq<byte>, isDir: bool) {
    && p in nodes && d in nodes && (p in nodes[d].children || |nodes[d].children| >= MAX_CHILDREN)
    && exists first, cluster, off ::
         nodes[p] == CreatedNode(name, isDir, first, cluster, off, d) && (isDir <==> first != 0)
  }

  lemma FilesKeptTrans(t: Tree, t1: Tree, t2: Tree)
    requires FilesKept(t, t1) && FilesKept(t1, t2) && forall h :: h in t1.dirs && h in t.store ==> h in t.dirs
    ensures FilesKept(t, t2)
  {}

  lemma DirStepKeepsFiles(t: Tree, t': Tree, head: nat)
    requires DirStep(t, t', head) && head in t.dirs
    ensures FilesKept(t, t')
  {}

  lemma WithDirKeepsFiles(t: Tree, c: nat, b: seq<byte>)
    requires c !in t.store
    ensures FilesKept(t, WithDir(t, c, b)) && forall h :: h in WithDir(t, c, b).dirs && h in t.store ==> h in t.dirs
  {}

  /** The chains after a creation in directory `head`: it may have grown, and there is a new one at `first` if that is not 0. */
  ghost predicate CreateLedger(l: Ledger, l': Ledger, head: nat, first: nat) {
    && l'.reserved == l.reserved && l'.chains.Keys == l.chains.Keys + (if first == 0 then {} else {first})
    && (first != 0 ==> first !in l.chains && l'.chains[first] == [first])
    && forall k :: k in l.chains ==> l.chains[k] <= l'.chains[k] && (k != head ==> l'.chains[k] == l.chains[k])
  }

  lemma CreatedInLedger(l: Ledger, l1: Ledger, l': Ledger, head: nat, first: nat)
    requires l1 == (if first == 0 then l else NewChain(l, first)) && first !in l.chains && head in l.chains && LedgerStep(l1, l', head)
    ensures CreateLedger(l, l', head, first)
  {}

  lemma StillUnreferenced(t: Tree, t': Tree, f: nat)
    requires SameEntries(t, t') && Unreferenced(t, f)
    ensures Unreferenced(t', f)
  {}

  /** Giving a new directory's cluster back undoes everything. */
  lemma DirUndone(t: Tree, t': Tree, l: Ledger, c: nat, parent: nat)
    requires TreeSound(t) && DirGained(t, t', c, parent) && c !in l.chains && c !in l.owner
    ensures DropTree(t', c, map[]) == t && DropChain(NewChain(l, c), c) == l
  {
    hide EmptyDir, NewDirBytes, EntriesSound, DirBytes;
    var b :| EmptyDir(b) && NewDirBytes(b, c, parent) && t' == WithDir(t, c, b);
    assert t.store[c := b] - {c} == t.store;
    assert t.dirs + {c} - {c} == t.dirs;
    assert DropTree(t', c, map[]).refs == t.refs;
    assert DropTree(t', c, map[]).wild == t.wild;
    var l' := DropChain(NewChain(l, c), c);
    assert l'.chains == l.chains;
    assert l'.owner == l.owner;
  }

  /** A new directory below `head` has its cluster and its dot entries, which start at `first`; for a file that is 0 and nothing happened. */
  ghost predicate Prepared(t: Tree, l: Ledger, t1: Tree, l1: Ledger, isDir: bool, first: nat, head: nat) {
    && (isDir <==> first != 0) && SameEntries(t, t1) && t1.root == t.root
    && if isDir then first !in l.chains && first !in l.owner && l1 == NewChain(l, first) && DirGained(t, t1, first, head)
       else t1 == t && l1 == l
  }

  /** Where the new file's or directory's bytes begin: 0 for a file. */
  method NewContents(dr: Driver, d: Ptr, isDir: bool) returns (ok: bool, first: nat)
    requires dr.Valid() && d in dr.nodes && dr.nodes[d].isDir
    modifies dr`l, dr`tree, dr.vol`disk, dr.vol.buf
    ensures dr.Valid() && dr.vol.Untouched() == old(dr.vol.Untouched()) && first < TWO32 && dr.tree.root == old(dr.tree).root
    ensures !ok ==> dr.tree == old(dr.tree) && dr.l == old(dr.l) && NoneFree(dr.vol) && isDir
    ensures |FreeIn(old(dr.l), dr.vol.g.Limit())| == |FreeIn(dr.l, dr.vol.g.Limit())| + if ok && isDir then 1 else 0
    ensures !ok ==> |FreeIn(dr.l, dr.vol.g.Limit())| == 0
    ensures ok ==> Prepared(old(dr.tree), old(dr.l), dr.tree, dr.l, isDir, first, HeadOf(old(dr.tree).root, dr.nodes[d]))
  {
    hide TreeSound, CacheSound, Settled, Owned, Handles, IsStore, NoneFree, Unreferenced, DotSector, SameEntries, DirGained, NewChain, FreeIn;
    HeadOfDir(dr, d);
    NoDirStep(dr.tree, 0);
    NoEntries(dr.tree);
    ok, first := true, 0;
    if isDir {
      var parent: nat := if dr.nodes[d].first != 0 then dr.nodes[d].first else dr.vol.g.rootCluster;
      first := AddDir(dr, parent);
      ok := first != 0;
    }
  }

  lemma NoEntries(t: Tree)
    ensures SameEntries(t, t)
  {}

  // ---- The clusters a creation needs

  /** One for a new directory, and one if the directory it goes into is full. */
  ghost function Needed(t: Tree, head: nat, isDir: bool): nat {
    (if isDir then 1 else 0) + if head in t.store && Full(t.store[head]) then 1 else 0
  }

  /** A creation took the clusters it needs from the free ones, or those are not enough. */
  ghost predicate SpaceDecides(t: Tree, l: Ledger, l': Ledger, limit: nat, head: nat, isDir: bool, made: bool) {
    if made then |FreeIn(l', limit)| + Needed(t, head, isDir) == |FreeIn(l, limit)|
    else |FreeIn(l, limit)| < Needed(t, head, isDir)
  }

  /** The clusters that a chain gains are free no more. */
  lemma FreeLess(fat: seq<nat>, l: Ledger, fat': seq<nat>, l': Ledger, f: nat)
    requires Owned(fat, l) && Owned(fat', l') && |fat'| == |fat| && LedgerStep(l, l', f)
    ensures |FreeIn(l', |fat|)| + ChainSize(l', f) == |FreeIn(l, |fat|)| + ChainSize(l, f)
  {
    RoomKept(fat, l, fat', l', f);
  }

  lemma NewDirCosts(fat: seq<nat>, l: Ledger, fat': seq<nat>, c: nat)
    requires Owned(fat, l) && Owned(fat', NewChain(l, c)) && |fat'| == |fat| && c !in l.chains
    ensures |FreeIn(NewChain(l, c), |fat|)| + 1 == |FreeIn(l, |fat|)|
  {
    LedgerSteps(l, c);
    FreeLess(fat, l, fat', NewChain(l, c), c);
  }

  /** What the search for a slot costs. */
  lemma SlotCosts(t: Tree, l: Ledger, t': Tree, l': Ledger, head: nat, found: bool, fat: seq<nat>, fat': seq<nat>)
    requires Widened(t, l, t', l', head, found) && LedgerStep(l, l', head)
    requires Owned(fat, l) && Owned(fat', l') && |fat'| == |fat|
    ensures found ==> |FreeIn(l', |fat|)| + Needed(t, head, false) == |FreeIn(l, |fat|)|
    ensures !found ==> Needed(t, head, false) == 1
  {
    hide Full, LedgerStep, Owned, FreeIn;
    FreeLess(fat, l, fat', l', head);
  }

  /** A new directory does not make the one it goes into full. */
  lemma NeedsSame(t: Tree, l: Ledger, t1: Tree, l1: Ledger, isDir: bool, first: nat, head: nat)
    requires Prepared(t, l, t1, l1, isDir, first, head) && head in t.store
    ensures Needed(t, head, isDir) == Needed(t1, head, false) + if isDir then 1 else 0
  {
    hide Full, EmptyDir, NewDirBytes, SameEntries, Unreferenced;
  }

  /** At most one cluster is free. */
  ghost predicate Scarce(vol: Volume)
    reads vol
  {
    forall j: nat, k: nat :: vol.g.Cluster(j) && vol.g.Cluster(k) && vol.Fat()[j] == FREE && vol.Fat()[k] == FREE ==> j == k
  }

  lemma OnlyOneFreed(fat: seq<nat>, l: Ledger, c: nat)
    requires Owned(fat, l) && c in l.chains && l.chains[c] == [c]
    ensures forall k: nat :: k < |fat| && Freed(fat, c)[k] != fat[k] ==> k == c
  {
    forall k: nat | k < |fat| && Freed(fat, c)[k] != fat[k]
      ensures k == c
    {
      ChainReachable(fat, l.chains[c], k);
    }
  }

  lemma ScarceAfter(vol: Volume, fat: seq<nat>, c: nat)
    requires |fat| == vol.g.Limit() && (forall k: nat :: vol.g.Cluster(k) ==> fat[k] != FREE)
    requires forall k: nat :: k < |fat| && vol.Fat()[k] != fat[k] ==> k == c
    ensures Scarce(vol)
  {}

  lemma NoneIsScarce(vol: Volume)
    requires NoneFree(vol)
    ensures Scarce(vol)
  {}

  /** Frees the cluster of a new directory that found no slot. */
  method Abandon(dr: Driver, isDir: bool, first: nat, ghost t: Tree, ghost l: Ledger, ghost head: nat)
    requires dr.Valid() && TreeSound(t) && CacheSound(t, dr.View()) && Settled(l.chains, dr.vol.g.BytesPerCluster(), dr.View())
    requires Prepared(t, l, dr.tree, dr.l, isDir, first, head) && NoneFree(dr.vol)
    modifies dr`l, dr`tree, dr.vol`disk, dr.vol.buf
    ensures dr.Valid() && dr.vol.Untouched() == old(dr.vol.Untouched()) && dr.tree == t && dr.l == l && Scarce(dr.vol)
  {
    hide NoneFree, TreeSound, CacheSound, Settled, Handles, IsStore, Owned, Freed, Scarce, DirGained;
    NoneIsScarce(dr.vol);
    if isDir {
      ghost var fat := dr.vol.Fat();
      DirUndone(t, dr.tree, l, first, head);
      OnlyOneFreed(fat, dr.l, first);
      NoneFreeIn(dr.vol);
      FreeChain(dr, first, map[]);
      ScarceAfter(dr.vol, fat, first);
    }
  }

  lemma NoneFreeIn(vol: Volume)
    requires NoneFree(vol)
    ensures forall k: nat :: vol.g.Cluster(k) ==> vol.Fat()[k] != FREE
  {}

  /** What creating `name` in directory `d` comes to; `p` is its node, or NULL. */
  ghost predicate CreateOutcome(t: Tree, v: Cache, l: Ledger, t': Tree, v': Cache, l': Ledger, d: Ptr, p: Ptr, name: seq<byte>, isDir: bool) {
    && FilesKept(t, t') && (AllReferred(t, 0) ==> (AllReferred(t', 0) <==> p == NULL || !isDir || Showable(name)))
    && (Tidy(t) ==> (Tidy(t') <==> p == NULL || Showable(name))) && PlacesKept(v, v')
    && if p == NULL then t' == t && l' == l && KeepTrack(t, v, t', v', {}) && StaysSmall(t, v, t', v') else
       && d in v.nodes && p !in v.nodes && Created(v'.nodes, d, p, name, isDir)
       && EntryMade(t', v', p, name, isDir) && EntriesGained(t, t', v'.at[p], Showable(name))
       && FirstFree(t, t', v'.at[p]) && v'.at[p].dir == HeadOf(t.root, v.nodes[d])
       && CreateLedger(l, l', HeadOf(t.root, v.nodes[d]), v'.nodes[p].first)
       && KeepTrack(t, v, t', v', LostBy(d, Agrees(v'.nodes, d, p, name)))
       && (Tracked(t, v, d) ==> (Tracked(t', v', d) <==> Agrees(v'.nodes, d, p, name)))
       && (SmallDirs(t, v) ==> (SmallDirs(t', v') <==> (Showable(name) ==> p in v'.nodes[d].children)))
       && (isDir ==> Tracked(t', v', p) && DirMade(t', v'.nodes[p].first, HeadOf(t.root, v.nodes[d])))
  }

  /** Chain `f` is that of a directory just made below `parent`. */
  ghost predicate DirMade(t: Tree, f: nat, parent: nat) { f in t.store && NewDirBytes(t.store[f], f, parent) }

  lemma StillMade(t: Tree, t': Tree, f: nat, parent: nat)
    requires DirMade(t, f, parent) && OnlyDirWritten(t, t', parent) && f != parent
    ensures DirMade(t', f, parent)
  {}

  lemma NothingCreated(t: Tree, v: Cache, l: Ledger, d: Ptr, name: seq<byte>, isDir: bool)
    ensures CreateOutcome(t, v, l, t, v, l, d, NULL, name, isDir)
  {
    NothingNew(t);
    NothingLost(t, v, {});
  }

  /** The part of `fat32_create` after the check for a twin. */
  method CreateNew(dr: Driver, d: Ptr, name: seq<byte>, isDir: bool) returns (p: Ptr)
    requires dr.Valid() && d in dr.nodes && dr.nodes[d].isDir && dr.nodes[d].loaded
    requires 0 !in name
    modifies dr`nodes, dr`nextPtr, dr`at, dr`holder, dr`l, dr`tree, dr.vol`disk, dr.vol.buf
    ensures dr.Valid() && dr.vol.Untouched() == old(dr.vol.Untouched())
    ensures if p == NULL then dr.View() == old(dr.View()) && Scarce(dr.vol) else Adopted(old(dr.nodes), dr.nodes, d, p, name, isDir)
    ensures CreateOutcome(old(dr.tree), old(dr.View()), old(dr.l), dr.tree, dr.View(), dr.l, d, p, name, isDir)
    ensures SpaceDecides(old(dr.tree), old(dr.l), dr.l, dr.vol.g.Limit(), HeadOf(old(dr.tree).root, old(dr.nodes)[d]), isDir, p != NULL)
  {
    hide TreeSound, CacheSound, Settled, Handles, NoneFree, Scarce, Showable, Prepared, CreateOutcome, Adopted,
         Driver.Valid, Driver.OnDisk, FreeIn, Full;
    ghost var t, l0, v := dr.tree, dr.l, dr.View();
    NothingCreated(t, v, l0, d, name, isDir);
    SoundParts(dr);
    NoZeroChain(dr);
    HeadInTree(dr, d);
    var ok, first := NewContents(dr, d, isDir);
    if !ok {
      NoneIsScarce(dr.vol);
      return NULL;
    }
    p := Place(dr, d, name, isDir, first, t, l0);
  }

  /** The search for a slot, and the new entry in it; a new directory's cluster is given back when there is none. */
  method Place(dr: Driver, d: Ptr, name: seq<byte>, isDir: bool, first: nat, ghost t: Tree, ghost l: Ledger) returns (p: Ptr)
    requires dr.Valid() && d in dr.nodes && dr.nodes[d].isDir && dr.nodes[d].loaded
    requires 0 !in name && first < TWO32 && Prepared(t, l, dr.tree, dr.l, isDir, first, HeadOf(t.root, dr.nodes[d]))
    requires TreeSound(t) && CacheSound(t, dr.View()) && Settled(l.chains, dr.vol.g.BytesPerCluster(), dr.View()) && 0 !in l.chains
    requires HeadOf(t.root, dr.nodes[d]) in t.dirs && HeadOf(t.root, dr.nodes[d]) in l.chains && HeadOf(t.root, dr.nodes[d]) in t.store
    requires |FreeIn(l, dr.vol.g.Limit())| == |FreeIn(dr.l, dr.vol.g.Limit())| + if isDir then 1 else 0
    modifies dr`nodes, dr`nextPtr, dr`at, dr`holder, dr`l, dr`tree, dr.vol`disk, dr.vol.buf
    ensures dr.Valid() && dr.vol.Untouched() == old(dr.vol.Untouched())
    ensures if p == NULL then dr.View() == old(dr.View()) && Scarce(dr.vol) else Adopted(old(dr.nodes), dr.nodes, d, p, name, isDir)
    ensures CreateOutcome(t, old(dr.View()), l, dr.tree, dr.View(), dr.l, d, p, name, isDir)
    ensures SpaceDecides(t, l, dr.l, dr.vol.g.Limit(), HeadOf(t.root, old(dr.nodes)[d]), isDir, p != NULL)
  {
    hide TreeSound, CacheSound, Settled, Handles, NoneFree, Scarce, Showable, FreeSlot, LedgerStep, DirStep,
         Prepared, EntryAdded, CreateOutcome, Adopted, DirGained, NewChain, Unused, Driver.Valid, FreeIn, Owned, Widened,
         Needed;
    ghost var v, t1, l1, fat1 := dr.View(), dr.tree, dr.l, dr.vol.Fat();
    SoundParts(dr);
    NeedsSame(t, l, t1, l1, isDir, first, HeadOf(t.root, v.nodes[d]));
    PreparedRoot(t, l, t1, l1, isDir, first, HeadOf(t.root, v.nodes[d]));
    NothingCreated(t, v, l, d, name, isDir);
    var found, cluster, off;
    ghost var s;
    found, cluster, off, s := FindSlot(dr, d);
    SoundParts(dr);
    SlotCosts(t1, l1, dr.tree, dr.l, HeadOf(t1.root, v.nodes[d]), found, fat1, dr.vol.Fat());
    if !found {
      FatRoom.NoneFreeIn(dr.vol, dr.l);
      Abandon(dr, isDir, first, t, l, HeadOf(t.root, dr.nodes[d]));
      return NULL;
    }
    ghost var t2 := dr.tree;
    ReadyToEnter(t, l, t1, l1, t2, v, isDir, first, HeadOf(t1.root, v.nodes[d]));
    p := Enter(dr, d, name, isDir, first, cluster, off, s);
    EnteredNode(t2, v, dr.tree, dr.View(), d, p, name, isDir, first);
    OutcomeEntered(t, l, t1, l1, t2, dr.l, v, dr.tree, dr.View(), d, p, name, isDir, first);
  }

  lemma EnteredNode(t: Tree, v: Cache, t': Tree, v': Cache, d: Ptr, p: Ptr, name: seq<byte>, isDir: bool, first: nat)
    requires EntryAdded(t, v, t', v', d, p, name, isDir, first)
    ensures p != NULL && Adopted(v.nodes, v'.nodes, d, p, name, isDir)
  {}

  lemma ReadyToEnter(t: Tree, l: Ledger, t1: Tree, l1: Ledger, t2: Tree, v: Cache, isDir: bool, first: nat, head: nat)
    requires TreeSound(t) && CacheSound(t, v) && Prepared(t, l, t1, l1, isDir, first, head) && DirStep(t1, t2, head)
    ensures t1.root == t.root && t2.root == t.root && (isDir <==> first != 0)
    ensures isDir ==> first in t2.store && first in t2.dirs && first != t.root && Unused(t2, v, first)
  {
    if isDir {
      StillUnreferenced(t1, t2, first);
      forall q | q in v.nodes
        ensures v.nodes[q].first != first
      {
        NodeFacts(t, v, q);
      }
    }
  }

  /** The tree has gained at most an unreferenced directory, then unused entries, then the new entry. */
  lemma OutcomeEntered(t: Tree, l: Ledger, t1: Tree, l1: Ledger, t2: Tree, l': Ledger, v: Cache, t': Tree, v': Cache,
                       d: Ptr, p: Ptr, name: seq<byte>, isDir: bool, first: nat)
    requires TreeSound(t) && TreeSound(t1) && CacheSound(t, v) && CacheSound(t1, v) && 0 !in l.chains
    requires d in v.nodes && v.nodes[d].isDir && v.nodes[d].loaded
    requires HeadOf(t.root, v.nodes[d]) in t.dirs && HeadOf(t.root, v.nodes[d]) in l.chains
    requires Prepared(t, l, t1, l1, isDir, first, HeadOf(t.root, v.nodes[d]))
    requires DirStep(t1, t2, HeadOf(t1.root, v.nodes[d])) && LedgerStep(l1, l', HeadOf(t1.root, v.nodes[d]))
    requires EntryAdded(t2, v, t', v', d, p, name, isDir, first)
    ensures CreateOutcome(t, v, l, t', v', l', d, p, name, isDir)
  {
    hide TreeSound, CacheSound, DirStep, SameEntries, FilesKept, KeepTrack, AllReferred, LedgerStep, CreateLedger, Tracked, EmptyDir,
         OnlyDirWritten, NewDirBytes, Adopted, Created, Prepared, EntryMade, EntriesGained, Agrees, Showable, SmallDirs, Tidy,
         FirstFree, DirGained, NewChain;
    var head := HeadOf(t.root, v.nodes[d]);
    PreparedRoot(t, l, t1, l1, isDir, first, head);
    PreparedParts(t, l, t1, l1, t2, isDir, first, head);
    CreatedInLedger(l, l1, l', head, first);
    BeforeEntry(t, t1, t2, v, d, isDir, first);
    GainedFrom(t, t1, t2, t', v'.at[p], Showable(name));
    FilesKeptTrans(t, t2, t');
    KeepTrackTrans(t, v, t2, v, t', v', LostBy(d, Agrees(v'.nodes, d, p, name)));
    assert Tracked(t, v, d) ==> Tracked(t2, v, d);
    AdoptedIsCreated(v.nodes, v'.nodes, d, p, name, isDir);
    if isDir { StillMade(t2, t', first, head); }
  }

  lemma PreparedRoot(t: Tree, l: Ledger, t1: Tree, l1: Ledger, isDir: bool, first: nat, head: nat)
    requires Prepared(t, l, t1, l1, isDir, first, head)
    ensures t1.root == t.root
  {}

  lemma PreparedParts(t: Tree, l: Ledger, t1: Tree, l1: Ledger, t2: Tree, isDir: bool, first: nat, head: nat)
    requires Prepared(t, l, t1, l1, isDir, first, head) && DirStep(t1, t2, head) && 0 !in l.chains
    ensures SameEntries(t, t1) && SameEntries(t1, t2) && t1.root == t.root && t2.root == t.root
    ensures (isDir <==> first != 0) && first !in l.chains && l1 == (if first == 0 then l else NewChain(l, first))
    ensures if isDir then DirGained(t, t1, first, head) else t1 == t && first == 0
  {}

  lemma AdoptedIsCreated(nodes: map<Ptr, Node>, nodes': map<Ptr, Node>, d: Ptr, p: Ptr, name: seq<byte>, isDir: bool)
    requires Adopted(nodes, nodes', d, p, name, isDir)
    ensures p !in nodes && Created(nodes', d, p, name, isDir)
  {
    assert (nodes[d].children + [p])[|nodes[d].children|] == p;
  }

  lemma GainedFrom(t: Tree, t1: Tree, t2: Tree, t': Tree, s: Slot, shown: bool)
    requires SameEntries(t, t1) && SameEntries(t1, t2) && EntriesGained(t2, t', s, shown) && FirstFree(t2, t', s)
    ensures EntriesGained(t, t', s, shown) && FirstFree(t, t', s)
  {}

  lemma BeforeEntry(t: Tree, t1: Tree, t2: Tree, v: Cache, d: Ptr, isDir: bool, first: nat)
    requires TreeSound(t) && TreeSound(t1) && CacheSound(t, v) && CacheSound(t1, v)
    requires d in v.nodes && v.nodes[d].isDir && v.nodes[d].loaded && HeadOf(t.root, v.nodes[d]) in t.dirs
    requires if isDir then SameEntries(t, t1) && DirGained(t, t1, first, HeadOf(t.root, v.nodes[d])) else t1 == t && first == 0
    requires t1.root == t.root && DirStep(t1, t2, HeadOf(t.root, v.nodes[d]))
    ensures StaysSmall(t, v, t2, v) && (Tidy(t) <==> Tidy(t2))
    ensures FilesKept(t, t2) && KeepTrack(t, v, t2, v, {}) && forall h :: h in t2.dirs && h in t.store ==> h in t.dirs
    ensures isDir ==> first in t2.store && EmptyDir(t2.store[first]) && NewDirBytes(t2.store[first], first, HeadOf(t.root, v.nodes[d]))
    ensures AllReferred(t, 0) ==> AllReferred(t2, first)
  {
    var head := HeadOf(t.root, v.nodes[d]);
    if isDir { GainedFacts(t, t1, v, first, head); } else { NothingLost(t, v, {}); }
    TrackedAfterStep(t1, t2, v, d, head);
    SmallAfterStep(t1, t2, v, d, head);
    KeepTrackTrans(t, v, t1, v, t2, v, {});
    NothingNew(t);
    DirStepKeepsFiles(t1, t2, head);
    FilesKeptTrans(t, t1, t2);
    if AllReferred(t, 0) { ReferredSame(t1, t2, first, first); }
  }

  lemma GainedFacts(t: Tree, t1: Tree, v: Cache, first: nat, head: nat)
    requires TreeSound(t) && TreeSound(t1) && CacheSound(t, v) && SameEntries(t, t1) && DirGained(t, t1, first, head)
    ensures FilesKept(t, t1) && KeepTrack(t, v, t1, v, {}) && StaysSmall(t, v, t1, v) && t1.root == t.root && t1.dirs == t.dirs + {first}
    ensures first in t1.store && first != t1.root && first !in t.store && EmptyDir(t1.store[first])
    ensures NewDirBytes(t1.store[first], first, head)
    ensures forall h :: h in t.store ==> h in t1.store
    ensures AllReferred(t, 0) ==> AllReferred(t1, first)
  {
    var b :| EmptyDir(b) && NewDirBytes(b, first, head) && t1 == WithDir(t, first, b);
    WithDirKeepsFiles(t, first, b);
    TrackedAfterStep(t, t1, v, ROOT, first);
    SmallAfterStep(t, t1, v, ROOT, first);
    if AllReferred(t, 0) { ReferredSame(t, t1, 0, first); }
  }

  lemma HeadInTree(dr: Driver, d: Ptr)
    requires dr.Valid() && d in dr.nodes && dr.nodes[d].isDir
    ensures HeadOf(dr.tree.root, dr.nodes[d]) in dr.tree.dirs && HeadOf(dr.tree.root, dr.nodes[d]) in dr.l.chains
    ensures HeadOf(dr.tree.root, dr.nodes[d]) in dr.tree.store
  {
    HeadOfDir(dr, d);
  }

  lemma NoZeroChain(dr: Driver)
    requires dr.Valid()
    ensures 0 !in dr.l.chains && TreeSound(dr.tree)
  {}

  lemma NothingNew(t: Tree)
    ensures FilesKept(t, t)
  {}

  lemma GrewAdopted(n0: map<Ptr, Node>, nodes: map<Ptr, Node>, nodes': map<Ptr, Node>, d: Ptr, p: Ptr, name: seq<byte>, isDir: bool)
    requires Grew(n0, nodes, d) && Adopted(nodes, nodes', d, p, name, isDir)
    ensures Grew(n0, nodes', d)
  {
    GrewMore(n0, nodes, d, p, nodes'[p]);
  }

  /** There are too few free clusters: at most one. */
  ghost predicate NoSpace(dr: Driver, d: Ptr, isDir: bool)
    requires d in dr.nodes
    reads dr, dr.vol
  {
    Scarce(dr.vol) && |FreeIn(dr.l, dr.vol.g.Limit())| < Needed(dr.tree, HeadOf(dr.tree.root, dr.nodes[d]), isDir)
  }

  /** Directory `d` lists a node of this name. */
  ghost predicate NameTaken(nodes: map<Ptr, Node>, d: Ptr, name: seq<byte>) {
    d in nodes && exists q :: q in nodes[d].children && q in nodes && nodes[q].name == name
  }

  /** Of the children of `d` only `p` may have this name. */
  ghost predicate NameWasFree(nodes: map<Ptr, Node>, d: Ptr, p: Ptr, name: seq<byte>) {
    d in nodes && forall q :: q in nodes[d].children && q in nodes && q != p ==> nodes[q].name != name
  }

  lemma NoTwin(nodes: map<Ptr, Node>, nodes': map<Ptr, Node>, d: Ptr, p: Ptr, name: seq<byte>, isDir: bool)
    requires d in nodes && FirstNamed(nodes, nodes[d].children, name, NULL) && Adopted(nodes, nodes', d, p, name, isDir)
    ensures NameWasFree(nodes', d, p, name)
  {
    forall q | q in nodes'[d].children && q in nodes' && q != p
      ensures nodes'[q].name != name
    {
      assert q in nodes[d].children;
    }
  }

  lemma TwinFound(nodes: map<Ptr, Node>, d: Ptr, name: seq<byte>, p: Ptr)
    requires d in nodes && FirstNamed(nodes, nodes[d].children, name, p) && p != NULL
    ensures NameTaken(nodes, d, name)
  {}

  lemma GrewHead(nodes: map<Ptr, Node>, nodes': map<Ptr, Node>, d: Ptr)
    requires Grew(nodes, nodes', d)
    ensures d in nodes' && nodes'[d].first == nodes[d].first && nodes'[d].isDir == nodes[d].isDir
    ensures nodes'[d].parent == nodes[d].parent && nodes.Keys <= nodes'.Keys
  {}

  /** After the lookup the directory is loaded, and has room if it had room before. */
  lemma RoomLeft(c: Cache, root: nat, d: Ptr, found: seq<Found>)
    requires Listed(c, root, d, found)
    ensures d in c.nodes && (|c.nodes[d].children| < MAX_CHILDREN <==> |found| < MAX_CHILDREN)
  {}

  /** Only a child that is added to the list is in it. */
  lemma ListedIfRoom(t: Tree, v: Cache, nodes': map<Ptr, Node>, d: Ptr, p: Ptr, name: seq<byte>, isDir: bool)
    requires CacheSound(t, v) && Adopted(v.nodes, nodes', d, p, name, isDir)
    ensures d in nodes' && (p in nodes'[d].children <==> |v.nodes[d].children| < MAX_CHILDREN)
  {
    assert ChildrenSound(v.nodes, d);
    assert (v.nodes[d].children + [p])[|v.nodes[d].children|] == p;
  }

  /**
   * Creates an empty file or directory, whatever its name and however many children `d` has. Every file keeps its
   * bytes. A chain is lost exactly if this made a directory whose name hides its entry. Directories whose children
   * agree with a scan still do, a new one from the start, and `d` exactly if it lists the new node and the name is
   * an 8.3 name in lower case that a scan shows. NULL means that `d` is no directory, that it has a child of this
   * name, or that fewer clusters are free than a new directory and a longer `d` need, and leaves the tree as it was;
   * otherwise the free clusters are exactly so many fewer.
   */
  method Create(dr: Driver, d: Ptr, name: seq<byte>, isDir: bool) returns (p: Ptr)
    requires dr.Valid() && d in dr.nodes && 0 !in name
    modifies dr`nodes, dr`nextPtr, dr`at, dr`holder, dr`l, dr`tree, dr.vol`disk, dr.vol.buf
    ensures dr.Valid() && dr.vol.Untouched() == old(dr.vol.Untouched())
    ensures Grew(old(dr.nodes), dr.nodes, d)
    ensures p == NULL ==> !old(dr.nodes)[d].isDir || NameTaken(dr.nodes, d, name) || NoSpace(dr, d, isDir)
    ensures p != NULL ==> d in dr.nodes && old(dr.nodes)[d].isDir && (p in dr.nodes[d].children <==> old(HasRoom(dr, d)))
    ensures p != NULL ==> NameWasFree(dr.nodes, d, p, name)
    ensures p != NULL ==>
      SpaceDecides(old(dr.tree), old(dr.l), dr.l, dr.vol.g.Limit(), HeadOf(old(dr.tree).root, old(dr.nodes)[d]), isDir, true)
    ensures CreateOutcome(old(dr.tree), old(dr.View()), old(dr.l), dr.tree, dr.View(), dr.l, d, p, name, isDir)
  {
    hide TreeSound, CacheSound, Settled, Owned, Handles, IsStore, OthersAgree, Grew, Listed, Scan, LongNamesFit,
         Showable, Made, Adopted, Scarce, NameTaken, KeepTrack, CreateOutcome, SmallDirs, FreeIn, Needed, NameWasFree;
    ghost var t, v0, l0, loaded := dr.tree, dr.View(), dr.l, dr.nodes[d].loaded;
    NothingLoaded(t, v0, d);
    NothingLost(t, v0, {});
    NothingCreated(t, v0, l0, d, name, isDir);
    if !dr.nodes[d].isDir { return NULL; }
    var twin := Lookup(dr, d, name);
    ghost var v := dr.View();
    NothingCreated(t, v, l0, d, name, isDir);
    GrewHead(v0.nodes, v.nodes, d);
    if twin != NULL {
      TwinFound(dr.nodes, d, name, twin);
      OutcomeFrom(t, v0, v, l0, t, v, l0, d, NULL, name, isDir);
      return NULL;
    }
    if !loaded { RoomLeft(v, t.root, d, Scan(t.store[HeadOf(t.root, v0.nodes[d])], 0, Idle)); }
    p := CreateNew(dr, d, name, isDir);
    NothingIfNull(t, v, l0, dr.tree, dr.View(), dr.l, d, p, name, isDir);
    OutcomeFrom(t, v0, v, l0, dr.tree, dr.View(), dr.l, d, p, name, isDir);
    if p != NULL {
      NoTwin(v.nodes, dr.nodes, d, p, name, isDir);
      ListedIfRoom(t, v, dr.nodes, d, p, name, isDir);
      GrewAdopted(v0.nodes, v.nodes, dr.nodes, d, p, name, isDir);
    }
  }

  lemma NothingIfNull(t: Tree, v: Cache, l: Ledger, t': Tree, v': Cache, l': Ledger, d: Ptr, p: Ptr, name: seq<byte>, isDir: bool)
    requires CreateOutcome(t, v, l, t', v', l', d, p, name, isDir)
    ensures p == NULL ==> t' == t && l' == l
  {}

  /** The lookup that comes first adds nodes only. */
  lemma OutcomeFrom(t: Tree, v0: Cache, v: Cache, l: Ledger, t': Tree, v': Cache, l': Ledger, d: Ptr, p: Ptr, name: seq<byte>, isDir: bool)
    requires KeepTrack(t, v0, t, v, {}) && StaysSmall(t, v0, t, v) && PlacesKept(v0, v) && d in v0.nodes && d in v.nodes
    requires v0.nodes.Keys <= v.nodes.Keys
    requires v0.nodes[d].first == v.nodes[d].first && CreateOutcome(t, v, l, t', v', l', d, p, name, isDir)
    ensures CreateOutcome(t, v0, l, t', v', l', d, p, name, isDir)
  {
    hide FilesKept, AllReferred, CreateLedger, Tracked, Created, EntryMade, EntriesGained, Agrees, Showable, SmallDirs, Tidy;
    KeepTrackTrans(t, v0, t, v, t', v', if p == NULL then {} else LostBy(d, Agrees(v'.nodes, d, p, name)));
  }
}
