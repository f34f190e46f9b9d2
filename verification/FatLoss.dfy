/** How the FAT32 driver does lose chains, or lets two files share an entry, with the inputs that make it. */
module FatLoss {
  import opened Bytes
  import opened FatChains
  import opened FatNames
  import opened FatEntries
  import opened FatLongNames
  import opened FatTree
  import opened FatNodes
  import opened FatScan
  import opened FatDriver
  import opened FatDirs
  import opened FatCreate
  import opened FatUnlink

  // ---- Unlinking a directory of more than 128 files

  /** Slot `r` of the loaded directory `d` refers to a chain, but the cache has no node for it. */
  ghost predicate Stranded(t: Tree, c: Cache, d: Ptr, r: Slot) {
    && d in c.nodes && d != ROOT && c.nodes[d].isDir && c.nodes[d].loaded
    && Seen(t, r) && r.dir == HeadOf(t.root, c.nodes[d]) && FirstOf(EntryOf(t, r)) != 0 && !Held(c, r)
  }

  /** The children of `d` are files, and none of its entries is in a wild slot. */
  ghost predicate OnlyFilesIn(t: Tree, c: Cache, d: Ptr) {
    && d in c.nodes && c.nodes[d].parent in c.nodes && NoWildIn(t, HeadOf(t.root, c.nodes[d]))
    && forall p :: p in c.nodes[d].children ==> p in c.nodes && !c.nodes[p].isDir
  }

  /** The entries beyond the first 128 are stranded once the directory is loaded. */
  lemma OverfullStrands(t: Tree, c: Cache, d: Ptr, i: nat)
    requires TreeSound(t) && CacheSound(t, c) && d in c.nodes && d != ROOT && c.nodes[d].isDir && c.nodes[d].loaded
    requires var h := HeadOf(t.root, c.nodes[d]);
      h in t.store && LongNamesFit(t.store[h]) && Listed(c, t.root, d, Scan(t.store[h], 0, Idle)) &&
      MAX_CHILDREN <= i < |Scan(t.store[h], 0, Idle)| && HasChain(t.store[h], Scan(t.store[h], 0, Idle)[i].pos)
    ensures Stranded(t, c, d, Slot(HeadOf(t.root, c.nodes[d]), Scan(t.store[HeadOf(t.root, c.nodes[d])], 0, Idle)[i].pos))
  {
    var b := t.store[HeadOf(t.root, c.nodes[d])];
    NodeFacts(t, c, d);
    DirsInStore(t, HeadOf(t.root, c.nodes[d]));
    NotListed(t, c, d, b, i);
    ScanOrder(b, 0, Idle);
  }

  ghost predicate HasChain(b: seq<byte>, pos: nat) { EntryPos(b, pos) && FirstOf(EntryAt(b, pos)) != 0 }

  /** A directory of files only has only files as children. */
  lemma ChildrenAreFiles(t: Tree, c: Cache, d: Ptr)
    requires TreeSound(t) && CacheSound(t, c) && d in c.nodes && HeadOf(t.root, c.nodes[d]) in t.store
    requires FilesOnly(t.store[HeadOf(t.root, c.nodes[d])]) && NoWildIn(t, HeadOf(t.root, c.nodes[d])) && c.nodes[d].parent in c.nodes
    ensures OnlyFilesIn(t, c, d)
  {
    forall p | p in c.nodes[d].children
      ensures p in c.nodes && !c.nodes[p].isDir
    {
      assert ChildrenSound(c.nodes, d) && NodeSound(t, c, p);
    }
  }

  ghost predicate FilesOnly(b: seq<byte>) {
    forall q: nat :: EntryPos(b, q) && Shows(EntryAt(b, q)) ==> !IsDir(EntryAt(b, q))
  }

  /** Unlinking a child leaves a stranded entry stranded. */
  lemma StaysStranded(t: Tree, v: Cache, l: Ledger, t': Tree, v': Cache, l': Ledger, d: Ptr, r: Slot, q: Ptr)
    requires TreeSound(t) && CacheSound(t, v) && Stranded(t, v, d, r) && OnlyFilesIn(t, v, d) && q in v.nodes[d].children
    requires Unlinked(t, v, l, t', v', l', q)
    ensures Stranded(t', v', d, r) && OnlyFilesIn(t', v', d)
    ensures t'.root == t.root && v'.nodes.Keys == v.nodes.Keys - {q}
  {
    hide TreeSound, CacheSound, UnlinkTree, KeepTrack, AllReferred, OtherFilesKept, LosesNone, LedgerLeft, Inside, Shows, EntryOf,
         Scan, PlainDir, Complete, NamesAgree;
    ChildIsFile(t, v, d, q);
    FileHasNoChildren(t, v, q);
    ParentThere(t, v, d, q);
    UnlinkFacts(t, v, q);
    NotTheStranded(t, v, d, r, q);
    ParentStays(t, v, d, q);
    InsideAfterUnlink(t, v, q, r);
    forall s | s in t'.wild
      ensures s.dir != r.dir
    {
      InsideAfterUnlink(t, v, q, s);
    }
  }

  lemma ParentThere(t: Tree, v: Cache, d: Ptr, q: Ptr)
    requires TreeSound(t) && CacheSound(t, v) && d in v.nodes && q in v.nodes[d].children && q in v.nodes && v.nodes[q].children == []
    ensures q in v.at && q != ROOT && v.nodes[q].parent == d && d != q && Inside(t, v.at[q]) && RemoveStep(t, v, q)
  {
    assert ChildrenSound(v.nodes, d) && NodeSound(t, v, q);
  }

  lemma ParentStays(t: Tree, v: Cache, d: Ptr, q: Ptr)
    requires CacheSound(t, v) && d in v.nodes && d != ROOT && q in v.nodes && q != ROOT && v.nodes[q].parent == d
    ensures v.nodes[d].parent != q
  {
    assert NodeSound(t, v, d) && NodeSound(t, v, q);
  }

  lemma NotTheStranded(t: Tree, v: Cache, d: Ptr, r: Slot, q: Ptr)
    requires TreeSound(t) && CacheSound(t, v) && Stranded(t, v, d, r) && OnlyFilesIn(t, v, d) && q in v.nodes[d].children
    ensures q in v.nodes && q in v.at && r != v.at[q] && r.dir != v.nodes[q].first && v.nodes[q].parent == d && v.at[q] !in t.wild
  {
    ChildOf(t, v, d, q);
    NodeFacts(t, v, q);
    NodeFacts(t, v, d);
  }

  /** Unlinks the children of `d`, then `d` itself: this succeeds, and the chain of the stranded entry is lost. */
  method RemoveWithChildren(dr: Driver, d: Ptr, ghost r: Slot)
    requires dr.Valid() && dr.LeakFree() && Stranded(dr.tree, dr.View(), d, r) && OnlyFilesIn(dr.tree, dr.View(), d)
    modifies dr`nodes, dr`nextPtr, dr`at, dr`holder, dr`l, dr`tree, dr.vol`disk, dr.vol.buf
    ensures dr.Valid() && d !in dr.nodes && !dr.LeakFree()
  {
    hide Driver.Valid, Stranded, OnlyFilesIn, AllReferred, TreeSound, CacheSound, KeepTrack, Unlinked, LosesNone,
         NothingMissing, SmallDirs;
    StrandedFacts(dr.tree, dr.View(), d, r);
    while dr.nodes[d].children != []
      invariant dr.Valid() && AllReferred(dr.tree, 0) && Stranded(dr.tree, dr.View(), d, r)
      invariant OnlyFilesIn(dr.tree, dr.View(), d) && d in dr.nodes
      decreases dr.nodes.Keys
    {
      var q := dr.nodes[d].children[0];
      ghost var t, v, l := dr.tree, dr.View(), dr.l;
      SoundParts(dr);
      ChildIsFile(t, v, d, q);
      NotTheStranded(t, v, d, r, q);
      FileMissesNothing(t, v, q);
      var n := Unlink(dr, q);
      StaysStranded(t, v, l, dr.tree, dr.View(), dr.l, d, r, q);
      FileGone(t, v, l, dr.tree, dr.View(), dr.l, q);
      StrandedFacts(dr.tree, dr.View(), d, r);
    }
    ghost var t, v, l := dr.tree, dr.View(), dr.l;
    SoundParts(dr);
    StrandedFacts(t, v, d, r);
    ParentIn(t, v, d);
    var n := Unlink(dr, d);
    StrandedLost(t, v, l, dr.tree, dr.View(), dr.l, d, r);
  }

  lemma ParentIn(t: Tree, c: Cache, d: Ptr)
    requires OnlyFilesIn(t, c, d)
    ensures c.nodes[d].parent in c.nodes
  {}

  lemma FileMissesNothing(t: Tree, v: Cache, q: Ptr)
    requires q in v.nodes && q in v.at && v.at[q] !in t.wild && !v.nodes[q].isDir
    ensures NothingMissing(t, v, q)
  {}

  lemma FileGone(t: Tree, v: Cache, l: Ledger, t': Tree, v': Cache, l': Ledger, q: Ptr)
    requires Unlinked(t, v, l, t', v', l', q) && LosesNone(t, v.at[q], v.nodes[q].first) && AllReferred(t, 0)
    ensures AllReferred(t', 0)
  {}

  lemma StrandedFacts(t: Tree, c: Cache, d: Ptr, r: Slot)
    requires Stranded(t, c, d, r)
    ensures d in c.nodes && d != ROOT && c.nodes[d].isDir && c.nodes[d].loaded
  {}

  lemma ChildIsFile(t: Tree, c: Cache, d: Ptr, q: Ptr)
    requires CacheSound(t, c) && OnlyFilesIn(t, c, d) && q in c.nodes[d].children
    ensures q in c.nodes && q != ROOT && !c.nodes[q].isDir
  {
    assert ChildrenSound(c.nodes, d);
  }

  lemma StrandedLost(t: Tree, v: Cache, l: Ledger, t': Tree, v': Cache, l': Ledger, d: Ptr, r: Slot)
    requires TreeSound(t) && CacheSound(t, v) && AllReferred(t, 0) && Stranded(t, v, d, r) && Unlinked(t, v, l, t', v', l', d)
    ensures d !in v'.nodes && !AllReferred(t', 0)
  {
    hide AllReferred, KeepTrack, OtherFilesKept;
    NodePlaced(t, v, d);
    NodeFacts(t, v, d);
    NotInItself(t, v, d);
    assert RefersTo(t, r, FirstOf(EntryOf(t, r))) && EntrySound(t, r, EntryOf(t, r));
    assert !LosesNone(t, v.at[d], v.nodes[d].first);
  }

  /**
   * The driver does lose chains: loading a directory of more than 128 files, unlinking the children it then lists,
   * and unlinking the directory leaves the chain of the 129th file allocated with nothing referring to it.
   */
  method LoseChain(dr: Driver, d: Ptr)
    requires dr.Valid() && dr.LeakFree() && d in dr.nodes && d != ROOT && dr.nodes[d].isDir && !dr.nodes[d].loaded
    requires dr.nodes[d].parent in dr.nodes
    requires var h := HeadOf(dr.tree.root, dr.nodes[d]);
      h in dr.tree.store && LongNamesFit(dr.tree.store[h]) && FilesOnly(dr.tree.store[h]) &&
      |Scan(dr.tree.store[h], 0, Idle)| > MAX_CHILDREN && HasChain(dr.tree.store[h], Scan(dr.tree.store[h], 0, Idle)[MAX_CHILDREN].pos)
    modifies dr`nodes, dr`nextPtr, dr`at, dr`holder, dr`l, dr`tree, dr.vol`disk, dr.vol.buf
    ensures dr.Valid() && d !in dr.nodes && !dr.LeakFree()
  {
    hide Driver.Valid, AllReferred, TreeSound, CacheSound, LongNamesFit, FilesOnly, HasChain, Scan, Listed, OthersAgree,
         PlacesKept, KeepTrack,
         Stranded, OnlyFilesIn, Grew, SmallDirs;
    ghost var h, v := HeadOf(dr.tree.root, dr.nodes[d]), dr.View();
    SoundParts(dr);
    NotLoadedIsTame(dr.tree, v, d);
    Load(dr, d);
    GrewHead(v.nodes, dr.nodes, d);
    SoundParts(dr);
    OverfullStrands(dr.tree, dr.View(), d, MAX_CHILDREN);
    ChildrenAreFiles(dr.tree, dr.View(), d);
    RemoveWithChildren(dr, d, Slot(h, Scan(dr.tree.store[h], 0, Idle)[MAX_CHILDREN].pos));
  }

  // ---- Names that hide their entries

  /** A directory ".a.b" gets a cluster that no entry a scan finds refers to, and the parent's listing no longer agrees with a scan. */
  method HideDirectory(dr: Driver, d: Ptr) returns (p: Ptr)
    requires dr.Valid() && d in dr.nodes && dr.LeakFree()
    modifies dr`nodes, dr`nextPtr, dr`at, dr`holder, dr`l, dr`tree, dr.vol`disk, dr.vol.buf
    ensures dr.Valid() && (p == NULL <==> dr.LeakFree())
    ensures p != NULL && old(Tracked(dr.tree, dr.View(), d)) ==> !Tracked(dr.tree, dr.View(), d)
  {
    hide Driver.Valid, Showable, Tracked, KeepsName, AllReferred, KeepTrack, SmallDirs, FilesKept, Created, EntryMade,
         EntriesGained, CreateLedger, Grew;
    DottedNames();
    p := Create(dr, d, [DOT, 97, DOT, 98], true);
  }

  /** A name that starts with 0xE5 leaves its slot free. */
  lemma DeletedName(isDir: bool, first: nat)
    requires first < TWO32
    ensures !Showable([DELETED, 97]) && NewEntry(Made([DELETED, 97]), AttrFor(isDir), first)[0] == DELETED
  {
    assert forall i :: 0 <= i < 2 ==> [DELETED, 97][i] != DOT;
    NoDotAt([DELETED, 97]);
    MadeFirstByte([DELETED, 97]);
    NewEntryReads(Made([DELETED, 97]), AttrFor(isDir), first);
  }

  lemma NoDotAt(s: seq<byte>)
    requires forall i :: 0 <= i < |s| ==> s[i] != DOT
    ensures LastDot(s) == |s|
  {}

  /** The slot that creating `p` left free is the first free one, so that is where the next entry goes. */
  lemma SlotReused(t: Tree, t1: Tree, t2: Tree, s: Slot, r: Slot, shown: bool)
    requires Inside(t1, s) && FirstFree(t, t1, s) && IsFree(EntryOf(t1, s)[0])
    requires r.dir == s.dir && Inside(t2, r) && EntriesGained(t1, t2, r, shown) && FirstFree(t1, t2, r)
    ensures r == s
  {
    hide Shows;
    if s.pos < r.pos {
      assert EntryOf(t2, s)[0] == t2.store[s.dir][s.pos];
    } else if r.pos < s.pos {
      SameSlotBefore(t1, s, r);
    }
  }

  lemma SameSlotBefore(t1: Tree, s: Slot, r: Slot)
    requires Inside(t1, s) && s.dir == r.dir && r.pos < s.pos && r.pos % ENTRY == 0 && AllTaken(t1.store[s.dir], s.pos)
    ensures Inside(t1, r) && !IsFree(EntryOf(t1, r)[0])
  {
    assert EntryOf(t1, r)[0] == t1.store[s.dir][r.pos];
  }


  lemma SharedSlot(t: Tree, v: Cache, l: Ledger, t1: Tree, v1: Cache, l1: Ledger, t2: Tree, v2: Cache, l2: Ledger, d: Ptr, p: Ptr, q: Ptr,
                   name: seq<byte>)
    requires CreateOutcome(t, v, l, t1, v1, l1, d, p, [DELETED, 97], false) && CreateOutcome(t1, v1, l1, t2, v2, l2, d, q, name, false)
    requires p != NULL && q != NULL && t1.root == t.root && d in v.nodes && d in v1.nodes && v1.nodes[d].first == v.nodes[d].first
    ensures p != q && p in v2.at && q in v2.at && v2.at[p] == v2.at[q]
  {
    hide Showable, Made, NewEntry, KeepTrack, AllReferred, SmallDirs, Tidy, Tracked, FilesKept, FirstFree, EntriesGained,
         Inside, Agrees, CreateLedger;
    DeletedName(false, v1.nodes[p].first);
    SlotReused(t, t1, t2, v1.at[p], v2.at[q], Showable(name));
  }

  /** Two files made one after the other then share one entry on disk, into which either write puts its chain and its size. */
  method ShareEntry(dr: Driver, d: Ptr, name: seq<byte>) returns (p: Ptr, q: Ptr)
    requires dr.Valid() && d in dr.nodes && 0 !in name
    modifies dr`nodes, dr`nextPtr, dr`at, dr`holder, dr`l, dr`tree, dr.vol`disk, dr.vol.buf
    ensures dr.Valid()
    ensures p != NULL && q != NULL ==> p != q && p in dr.nodes && q in dr.nodes && p in dr.at && q in dr.at && dr.at[p] == dr.at[q]
  {
    hide Driver.Valid, CreateOutcome, Grew, TreeSound, CacheSound, HasRoom;
    ghost var t, v, l := dr.tree, dr.View(), dr.l;
    SoundParts(dr);
    q := NULL;
    p := Create(dr, d, [DELETED, 97], false);
    if p == NULL { return; }
    SoundParts(dr);
    GrewHead(v.nodes, dr.nodes, d);
    ghost var t1, v1, l1 := dr.tree, dr.View(), dr.l;
    q := Create(dr, d, name, false);
    if q == NULL { return; }
    GrewHead(v1.nodes, dr.nodes, d);
    OutcomeNode(t, v, l, t1, v1, l1, d, p, [DELETED, 97], false);
    OutcomeNode(t1, v1, l1, dr.tree, dr.View(), dr.l, d, q, name, false);
    SharedSlot(t, v, l, t1, v1, l1, dr.tree, dr.View(), dr.l, d, p, q, name);
  }

  lemma OutcomeNode(t: Tree, v: Cache, l: Ledger, t': Tree, v': Cache, l': Ledger, d: Ptr, p: Ptr, name: seq<byte>, isDir: bool)
    requires CreateOutcome(t, v, l, t', v', l', d, p, name, isDir) && p != NULL
    ensures p in v'.nodes
  {}
}
