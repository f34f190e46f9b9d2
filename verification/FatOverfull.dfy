/** A well-formed directory tree with a directory of 129 files, each of one cluster. */
module FatOverfull {
  import opened Bytes
  import opened FatNames
  import opened FatEntries
  import opened FatLongNames
  import opened FatTree
  import opened FatNodes
  import opened FatScan
  import opened FatTable
  import opened FatChains
  import opened FatFile
  import opened FatStore
  import opened FatDriver
  import opened FatDirs
  import opened FatCreate
  import opened FatLoss

  const FILES: nat := 129
  const ROOT_DIR: nat := 2
  const FULL_DIR: nat := 3
  const FIRST_FILE: nat := 4

  /** "F000", "F001", and so on. */
  function FileName(i: nat): (n: ShortName)
    requires i < FILES
    ensures n.Wide() && n.base[0] == 70
  {
    ShortName([70, (48 + i / 100) as byte, (48 + i / 10 % 10) as byte, (48 + i % 10) as byte] + Spaces(4), Spaces(3))
  }

  function FileEntry(i: nat): Entry
    requires i < FILES
  {
    WithSize(NewEntry(FileName(i), ATTR_ARCHIVE, FIRST_FILE + i), 512)
  }

  lemma FileEntryReads(i: nat)
    requires i < FILES
    ensures var e := FileEntry(i);
      Shows(e) && !IsLongNamePart(e) && !IsDir(e) && FirstOf(e) == FIRST_FILE + i && SizeOf(e) == 512
  {
    NewEntryReads(FileName(i), ATTR_ARCHIVE, FIRST_FILE + i);
    WithSizeReads(NewEntry(FileName(i), ATTR_ARCHIVE, FIRST_FILE + i), 512);
  }

  /** The directory's own entry, "D". */
  function DirEntry(): Entry { NewEntry(ShortName([68] + Spaces(7), Spaces(3)), ATTR_DIR, FULL_DIR) }

  lemma DirEntryReads()
    ensures var e := DirEntry(); Shows(e) && !IsLongNamePart(e) && IsDir(e) && FirstOf(e) == FULL_DIR
  {
    NewEntryReads(ShortName([68] + Spaces(7), Spaces(3)), ATTR_DIR, FULL_DIR);
  }

  function Listing(n: nat): (b: seq<byte>)
    requires n <= FILES
    ensures |b| == ENTRY * n
  {
    if n == 0 then [] else Listing(n - 1) + FileEntry(n - 1)
  }

  lemma {:induction false} ListedAt(n: nat, i: nat, more: seq<byte>)
    requires i < n <= FILES
    ensures (Listing(n) + more)[ENTRY * i..ENTRY * i + ENTRY] == FileEntry(i)
  {
    hide FileEntry;
    if i < n - 1 {
      ListedAt(n - 1, i, FileEntry(n - 1) + more);
      assert Listing(n) + more == Listing(n - 1) + (FileEntry(n - 1) + more);
    }
  }

  function RootBytes(): seq<byte> { DirEntry() + Zeros(480) }
  function FullBytes(): seq<byte> { Listing(FILES) + Zeros(480) }

  /** The first `n` entries show, and the rest are unused. */
  ghost predicate Filled(b: seq<byte>, n: nat) {
    && |b| % ENTRY == 0 && ENTRY * n <= |b|
    && forall q: nat :: EntryPos(b, q) ==>
         if q < ENTRY * n then Shows(EntryAt(b, q)) && !IsLongNamePart(EntryAt(b, q)) else EntryAt(b, q)[0] == 0
  }

  lemma FilledIsDir(b: seq<byte>, n: nat)
    requires Filled(b, n)
    ensures DirBytes(b)
  {
    forall q: nat | EntryPos(b, q)
      ensures !IsLongNamePart(EntryAt(b, q)) && (b[q] == 0 <==> q >= ENTRY * n)
    {
      assert EntryAt(b, q)[0] == b[q];
    }
  }

  /** A scan finds all of them. */
  lemma {:induction false} FilledScan(b: seq<byte>, n: nat, k: nat)
    requires Filled(b, n) && LongNamesFit(b) && k <= n
    ensures |Scan(b, ENTRY * k, Idle)| == n - k
    ensures forall i :: 0 <= i < n - k ==> Scan(b, ENTRY * k, Idle)[i].pos == ENTRY * (k + i)
    decreases n - k
  {
    hide FoundName, Shows, IsLongNamePart, LfnFits;
    if k < n {
      assert EntryPos(b, ENTRY * k);
      ScanShown(b, ENTRY * k);
      FilledScan(b, n, k + 1);
      assert ENTRY * k + ENTRY == ENTRY * (k + 1);
    } else if EntryPos(b, ENTRY * k) {
      ScanUnused(b, ENTRY * k);
    }
  }

  lemma ScanShown(b: seq<byte>, pos: nat)
    requires LongNamesFit(b) && EntryPos(b, pos) && Shows(EntryAt(b, pos)) && !IsLongNamePart(EntryAt(b, pos))
    ensures Scan(b, pos, Idle) == [Found(pos, FoundName(Idle, EntryAt(b, pos)))] + Scan(b, pos + ENTRY, Idle)
  {}

  lemma ScanUnused(b: seq<byte>, pos: nat)
    requires LongNamesFit(b) && EntryPos(b, pos) && EntryAt(b, pos)[0] == 0
    ensures Scan(b, pos, Idle) == []
  {}

  lemma FullAt(q: nat)
    requires EntryPos(FullBytes(), q)
    ensures EntryAt(FullBytes(), q) == if q / ENTRY < FILES then FileEntry(q / ENTRY) else Zeros(ENTRY)
    ensures q == ENTRY * (q / ENTRY)
  {
    hide FileEntry;
    if q / ENTRY < FILES { ListedAt(FILES, q / ENTRY, Zeros(480)); }
  }

  lemma FullIsFilled()
    ensures Filled(FullBytes(), FILES) && FilesOnly(FullBytes())
  {
    hide FileEntry, Shows, IsLongNamePart, IsDir;
    forall q: nat | EntryPos(FullBytes(), q)
      ensures if q < ENTRY * FILES then Shows(EntryAt(FullBytes(), q)) && !IsLongNamePart(EntryAt(FullBytes(), q))
                                        && !IsDir(EntryAt(FullBytes(), q))
              else EntryAt(FullBytes(), q)[0] == 0
    {
      FullAt(q);
      if q < ENTRY * FILES { FileEntryReads(q / ENTRY); }
    }
    forall q: nat | EntryPos(FullBytes(), q) && Shows(EntryAt(FullBytes(), q))
      ensures !IsDir(EntryAt(FullBytes(), q))
    {
      UnusedIsHidden(EntryAt(FullBytes(), q));
    }
  }

  lemma UnusedIsHidden(e: Entry)
    requires Shows(e)
    ensures e[0] != 0
  {}

  lemma RootAt(q: nat)
    requires EntryPos(RootBytes(), q)
    ensures EntryAt(RootBytes(), q) == if q == 0 then DirEntry() else Zeros(ENTRY)
  {}

  lemma RootIsFilled()
    ensures Filled(RootBytes(), 1)
  {
    hide DirEntry, Shows, IsLongNamePart;
    DirEntryReads();
    forall q: nat | EntryPos(RootBytes(), q)
      ensures if q < ENTRY then Shows(EntryAt(RootBytes(), q)) && !IsLongNamePart(EntryAt(RootBytes(), q)) else EntryAt(RootBytes(), q)[0] == 0
    {
      RootAt(q);
    }
  }

  function BytesOf(h: nat): (b: seq<byte>)
    ensures h >= FIRST_FILE ==> |b| == 512
  {
    if h == ROOT_DIR then RootBytes() else if h == FULL_DIR then FullBytes() else Zeros(512)
  }

  /** Where the entry of chain `h` is. */
  function PlaceOf(h: nat): Slot
    requires h >= FULL_DIR
  {
    if h == FULL_DIR then Slot(ROOT_DIR, 0) else Slot(FULL_DIR, ENTRY * (h - FIRST_FILE))
  }

  /** The root holds one directory, which holds the files. */
  function Overfull(): Tree {
    Tree(ROOT_DIR,
         map h: nat | ROOT_DIR <= h < FIRST_FILE + FILES :: BytesOf(h),
         {ROOT_DIR, FULL_DIR},
         map h: nat | FULL_DIR <= h < FIRST_FILE + FILES :: Ref(PlaceOf(h), 0),
         map[])
  }

  /** Every entry is the one that its chain's place says. */
  lemma OverfullEntry(s: Slot)
    requires Inside(Overfull(), s) && EntryOf(Overfull(), s)[0] != 0
    ensures EntrySound(Overfull(), s, EntryOf(Overfull(), s))
    ensures var h := FirstOf(EntryOf(Overfull(), s)); h != 0 && h in Overfull().refs && Overfull().refs[h].slot == s
  {
    hide FileEntry, DirEntry, RootBytes, FullBytes, IsDir;
    if s.dir == ROOT_DIR {
      RootAt(s.pos);
      DirEntryReads();
    } else {
      FullAt(s.pos);
      FileEntryReads(s.pos / ENTRY);
      FileChain(FIRST_FILE + s.pos / ENTRY);
    }
  }

  lemma FileChain(h: nat)
    requires FIRST_FILE <= h < FIRST_FILE + FILES
    ensures h in Overfull().store && |Overfull().store[h]| == 512 && h in Overfull().refs
    ensures Overfull().refs[h] == Ref(Slot(FULL_DIR, ENTRY * (h - FIRST_FILE)), 0)
  {}

  /** Every chain but the root's has its entry. */
  lemma OverfullReferred(h: nat)
    requires FULL_DIR <= h < FIRST_FILE + FILES
    ensures Referred(Overfull(), h)
  {
    hide FileEntry, DirEntry, IsDir, Shows;
    var s := Overfull().refs[h].slot;
    if h == FULL_DIR {
      RootAt(0);
      DirEntryReads();
    } else {
      FullAt(ENTRY * (h - FIRST_FILE));
      FileEntryReads(h - FIRST_FILE);
    }
    assert RefersTo(Overfull(), s, h);
  }

  /**
   * The tree is well formed, no chain in it is lost, and its directory has more entries than a node can list, the
   * last of which has a chain: all that losing that chain takes.
   */
  lemma OverfullIsSound()
    ensures TreeSound(Overfull()) && AllReferred(Overfull(), 0) && Overfull().wild == map[]
    ensures FULL_DIR in Overfull().dirs && DirBytes(Overfull().store[FULL_DIR]) && FilesOnly(Overfull().store[FULL_DIR])
    ensures var b := Overfull().store[FULL_DIR];
      |Scan(b, 0, Idle)| == FILES > MAX_CHILDREN && HasChain(b, Scan(b, 0, Idle)[MAX_CHILDREN].pos)
  {
    hide FileEntry, DirEntry, RootBytes, FullBytes, FilesOnly, EntrySound, Scan, IsDir, Shows, Referred, DirBytes, Listing;
    FullIsFilled();
    RootIsFilled();
    FilledIsDir(FullBytes(), FILES);
    FilledIsDir(RootBytes(), 1);
    forall s | Seen(Overfull(), s)
      ensures EntrySound(Overfull(), s, EntryOf(Overfull(), s))
    {
      UnusedIsHidden(EntryOf(Overfull(), s));
      OverfullEntry(s);
    }
    forall h | h in Overfull().store && h != ROOT_DIR
      ensures Referred(Overfull(), h)
    {
      OverfullReferred(h);
    }
    LastHasChain();
  }

  lemma LastHasChain()
    ensures DirBytes(FullBytes())
    ensures |Scan(FullBytes(), 0, Idle)| == FILES && HasChain(FullBytes(), Scan(FullBytes(), 0, Idle)[MAX_CHILDREN].pos)
  {
    hide FileEntry, Scan, Shows;
    FullIsFilled();
    FilledIsDir(FullBytes(), FILES);
    FilledScan(FullBytes(), FILES, 0);
    FullAt(ENTRY * MAX_CHILDREN);
    FileEntryReads(MAX_CHILDREN);
  }

  /** The root's listing has one entry, of which the directory's node was made. */
  lemma DirectoryFound(c: Cache, n0: map<Ptr, Node>)
    requires CacheSound(Overfull(), c) && LongNamesFit(RootBytes()) && Listed(c, ROOT_DIR, ROOT, Scan(RootBytes(), 0, Idle))
    requires Grew(n0, c.nodes, ROOT) && n0.Keys == {ROOT}
    ensures c.nodes[ROOT].children != []
    ensures var d := c.nodes[ROOT].children[0];
      d in c.nodes && d != ROOT && c.nodes[d].isDir && !c.nodes[d].loaded && c.nodes[d].first == FULL_DIR && c.nodes[d].parent == ROOT
  {
    hide Scan, RootBytes, FullBytes, DirEntry, Shows, IsDir, CacheSound;
    RootIsFilled();
    FilledScan(RootBytes(), 1, 0);
    OverfullIsSound();
    NodeFacts(Overfull(), c, ROOT);
    var d := c.nodes[ROOT].children[0];
    assert ListedAs(c, ROOT_DIR, d, Scan(RootBytes(), 0, Idle)[0]);
    ChildOf(Overfull(), c, ROOT, d);
    NodeFacts(Overfull(), c, d);
    RootAt(0);
    DirEntryReads();
  }

  /** Mounting a volume with this tree, and unlinking the directory with all that it lists, loses a chain. */
  method MountAndLose(vol: Volume, ghost l: Ledger) returns (dr: Driver)
    requires Sound(vol, l) && IsStore(vol, l, Overfull().store) && vol.g.rootCluster == ROOT_DIR
    modifies vol`disk, vol.buf
    ensures fresh(dr) && dr.vol == vol && dr.Valid() && !dr.LeakFree()
  {
    hide Driver.Valid, Driver.OnDisk, Overfull, FullBytes, RootBytes, AllReferred, TreeSound, CacheSound, Listed, Scan,
         HasChain, FilesOnly, Grew,
         OthersAgree, PlacesKept, PlacesSame, KeepTrack, SmallDirs, Owned, IsStore, DirBytes, EntriesSound;
    OverfullIsSound();
    OverfullRoot();
    dr := new Driver(vol, l, Overfull());
    ghost var n0 := dr.nodes;
    Load(dr, ROOT);
    SoundParts(dr);
    GrewHead(n0, dr.nodes, ROOT);
    DirectoryFound(dr.View(), n0);
    DirFits(FullBytes());
    LoseChain(dr, dr.nodes[ROOT].children[0]);
  }

  lemma OverfullRoot()
    ensures Overfull().root == ROOT_DIR && ROOT_DIR in Overfull().store && Overfull().store[ROOT_DIR] == RootBytes()
    ensures FULL_DIR in Overfull().store && Overfull().store[FULL_DIR] == FullBytes()
  {}
}
