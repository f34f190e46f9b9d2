/** Deleting files and empty directories from a FAT32 volume. */
module FatUnlink {
  import opened FileSpec
  import opened FatVolume
  import opened FatTable
  import opened FatChains
  import opened FatEntries
  import opened FatLongNames
  import opened FatTree
  import opened FatNodes
  import opened FatScan
  import opened FatStore
  import opened FatDriver
  import opened FatDirs
  import opened FatCreate

  lemma NoLongerReferenced(t: Tree, v: Cache, q: Ptr)
    requires RemoveStep(t, v, q) && v.nodes[q].first != 0
    ensures Unreferenced(PutEntry(t, v.at[q], Deleted(EntryOf(t, v.at[q])), 0, 0), v.nodes[q].first)
    ensures v.nodes[q].first != t.root
  {
    NodeFacts(t, v, q);
    var s, e := v.at[q], EntryOf(t, v.at[q]);
    DeletedHidden(e);
    var t1 := PutEntry(t, s, Deleted(e), 0, 0);
    forall r | Seen(t1, r)
      ensures FirstOf(EntryOf(t1, r)) != v.nodes[q].first
    {
      SeenAfterPut(t, s, Deleted(e), 0, 0, r);
      assert EntrySound(t, r, EntryOf(t, r));
    }
  }

  /** Marking the entry and freeing the chain keeps the tree sound. */
  lemma UnlinkFacts(t: Tree, v: Cache, q: Ptr)
    requires RemoveStep(t, v, q)
    ensures TreeSound(UnlinkTree(t, v, q)) && UnlinkTree(t, v, q).root == t.root
  {
    NodeFacts(t, v, q);
    var s, f, e := v.at[q], v.nodes[q].first, EntryOf(t, v.at[q]);
    DeletedHidden(e);
    InUseThere(t, v, q);
    EntryPut(t, s, Deleted(e), 0, 0);
    if f != 0 {
      NoLongerReferenced(t, v, q);
      ChainGone(PutEntry(t, s, Deleted(e), 0, 0), f, Strays(v, f));
    }
  }

  /** The slot of a node is in use, or was, and is no part of a long name. */
  lemma InUseThere(t: Tree, v: Cache, q: Ptr)
    requires RemoveStep(t, v, q)
    ensures t.store[v.at[q].dir][v.at[q].pos] != 0 && AttrOf(EntryOf(t, v.at[q])) != ATTR_LFN
  {
    NodeFacts(t, v, q);
    assert EntryOf(t, v.at[q])[0] == t.store[v.at[q].dir][v.at[q].pos];
  }

  /** Directories whose children agree with a scan still do. */
  lemma UnlinkedTracked(t: Tree, v: Cache, q: Ptr, d: Ptr, x: Ptr)
    requires RemoveStep(t, v, q) && d == v.nodes[q].parent && d != q && Tracked(t, v, x) && x != q
    ensures Tracked(UnlinkTree(t, v, q), RemoveNode(v, d, q), x)
  {
    hide CacheSound, Scan, Complete, NamesAgree, Deleted, UnlinkTree;
    StillPlain(t, v, q, d, x);
    if v.nodes[x].loaded {
      RemovedComplete(t, v, d, q, x);
      RemovedNames(t, v, d, q, x);
    }
  }

  lemma StillPlain(t: Tree, v: Cache, q: Ptr, d: Ptr, x: Ptr)
    requires RemoveStep(t, v, q) && d == v.nodes[q].parent && d != q && x in v.nodes && v.nodes[x].isDir && x != q
    requires PlainDir(t, HeadOf(t.root, v.nodes[x])) && NoWildIn(t, HeadOf(t.root, v.nodes[x]))
    ensures var t', h := UnlinkTree(t, v, q), HeadOf(t.root, v.nodes[x]);
      && t'.root == t.root && PlainDir(t', h) && NoWildIn(t', h) && (!v.nodes[x].loaded ==> t'.store[h] == t.store[h])
    ensures x == d ==> v.at[q] !in t.wild
  {
    hide CacheSound, EntriesSound, WildSound, Complete, Deleted, Shows;
    var h := HeadOf(t.root, v.nodes[x]);
    UnlinkFacts(t, v, q);
    DirStays(t, v, q, x);
    ParentHead(t, v, q, d, x);
    BytesAfterUnlink(t, v, q, h);
    if h == v.at[q].dir {
      DeletedHidden(EntryOf(t, v.at[q]));
      NoLongNamesSet(t.store[h], v.at[q].pos, Deleted(EntryOf(t, v.at[q])));
    }
    forall r | r in UnlinkTree(t, v, q).wild
      ensures r.dir != h
    {
      InsideAfterUnlink(t, v, q, r);
    }
  }

  lemma ParentHead(t: Tree, v: Cache, q: Ptr, d: Ptr, x: Ptr)
    requires RemoveStep(t, v, q) && d == v.nodes[q].parent && x in v.nodes && v.nodes[x].isDir
    requires NoWildIn(t, HeadOf(t.root, v.nodes[x]))
    ensures HeadOf(t.root, v.nodes[x]) == v.at[q].dir ==> v.nodes[x].loaded
    ensures x == d ==> v.at[q] !in t.wild
  {
    NodeFacts(t, v, q);
    if HeadOf(t.root, v.nodes[x]) == v.at[q].dir { HeadUnique(t, v, x, d); }
  }

  lemma BytesAfterUnlink(t: Tree, v: Cache, q: Ptr, h: nat)
    requires RemoveStep(t, v, q) && h in t.dirs && h in t.store && h != v.nodes[q].first
    ensures var t', s := UnlinkTree(t, v, q), v.at[q];
      && h in t'.dirs && h in t'.store
      && t'.store[h] == if h == s.dir then SetEntry(t.store[h], s.pos, Deleted(EntryOf(t, s))) else t.store[h]
  {}

  /** The chain that goes is not that of another directory. */
  lemma DirStays(t: Tree, v: Cache, q: Ptr, x: Ptr)
    requires RemoveStep(t, v, q) && x in v.nodes && v.nodes[x].isDir && x != q
    ensures HeadOf(t.root, v.nodes[x]) != v.nodes[q].first
  {
    NodeFacts(t, v, q);
    NodeFacts(t, v, x);
    if v.nodes[x].first != 0 && v.nodes[x].first == v.nodes[q].first { FirstUnique(t, v, x, q); }
  }

  lemma SettledRemove(chains: map<nat, seq<nat>>, chains': map<nat, seq<nat>>, bpc: nat, t: Tree, v: Cache, q: Ptr, d: Ptr)
    requires bpc > 0 && Settled(chains, bpc, v) && RemoveStep(t, v, q) && d == v.nodes[q].parent && d != q
    requires forall h :: h in chains && h != v.nodes[q].first ==> h in chains' && chains'[h] == chains[h]
    ensures Settled(chains', bpc, RemoveNode(v, d, q))
  {
    var v' := RemoveNode(v, d, q);
    forall p | p in v'.nodes && p != ROOT && p in v'.at
      ensures LiesThere(chains', bpc, v', p)
    {
      assert LiesThere(chains, bpc, v, p);
      NodeFacts(t, v, p);
      NodeFacts(t, v, q);
      LiesLonger(chains, chains', bpc, v.at[p], v.nodes[p].dirCluster, Rem(v.nodes[p].direntOff, bpc));
    }
  }

  lemma HandlesRemove(nodes: map<Ptr, Node>, nextPtr: Ptr, d: Ptr, q: Ptr)
    requires Handles(nodes, nextPtr) && d in nodes
    ensures Handles(Orphan(nodes, d, q), nextPtr)
  {}

  /** Every file's chain but `first` keeps its bytes. */
  ghost predicate OtherFilesKept(t: Tree, t': Tree, first: nat) {
    forall h :: h in t.store && h !in t.dirs && h != first ==> h in t'.store && t'.store[h] == t.store[h]
  }

  lemma UnlinkKeepsFiles(t: Tree, v: Cache, q: Ptr)
    requires RemoveStep(t, v, q)
    ensures OtherFilesKept(t, UnlinkTree(t, v, q), v.nodes[q].first)
  {}

  /** The shifting loop that takes a node out of its parent's children. */
  method RemoveChild(children: seq<Ptr>, q: Ptr) returns (r: seq<Ptr>)
    requires NoRepeats(children)
    ensures r == Without(children, q)
  {
    var i: nat := 0;
    while i < |children| && children[i] != q
      invariant i <= |children| && q !in children[..i]
    {
      i := i + 1;
    }
    if i == |children| {
      assert children[..i] == children;
      NothingToRemove(children, q);
      return children;
    }
    r := children[..i] + children[i + 1..];
    RemovedOne(children, i);
  }

  lemma {:induction false} NothingToRemove(s: seq<Ptr>, q: Ptr)
    requires q !in s
    ensures Without(s, q) == s
  {
    if s != [] { NothingToRemove(s[1..], q); }
  }

  lemma {:induction false} RemovedOne(s: seq<Ptr>, i: nat)
    requires NoRepeats(s) && i < |s|
    ensures Without(s, s[i]) == s[..i] + s[i + 1..]
  {
    if i == 0 {
      NothingToRemove(s[1..], s[0]);
    } else {
      assert NoRepeats(s[1..]);
      RemovedOne(s[1..], i - 1);
      assert s[..i] + s[i + 1..] == [s[0]] + (s[1..][..i - 1] + s[1..][i..]);
    }
  }

  /** Marks the entry of `q` deleted and frees its chain. */
  method Erase(dr: Driver, q: Ptr)
    requires dr.OnDisk() && q in dr.nodes && q in dr.at && Inside(dr.tree, dr.at[q])
    requires dr.nodes[q].first == 0 || (2 <= dr.nodes[q].first && dr.nodes[q].first in dr.l.chains)
    requires Lies(dr.l.chains, dr.vol.g.BytesPerCluster(), dr.at[q], dr.nodes[q].dirCluster,
                  Rem(dr.nodes[q].direntOff, dr.vol.g.BytesPerCluster()))
    modifies dr`l, dr`tree, dr.vol`disk, dr.vol.buf
    ensures dr.OnDisk() && dr.vol.Untouched() == old(dr.vol.Untouched())
    ensures dr.tree == UnlinkTree(old(dr.tree), dr.View(), q)
    ensures dr.l == if dr.nodes[q].first == 0 then old(dr.l) else DropChain(old(dr.l), dr.nodes[q].first)
    ensures dr.l.chains == ChainsLeft(old(dr.l).chains, dr.nodes[q].first)
  {
    hide Owned, IsStore, Lies, PutBytes, Deleted, DropTree, Strays;
    var node := dr.nodes[q];
    EditDeleted(dr.vol, node.dirCluster, Rem(node.direntOff, dr.vol.g.BytesPerCluster()), dr.l, dr.at[q], dr.tree);
    dr.tree := PutEntry(dr.tree, dr.at[q], Deleted(EntryOf(dr.tree, dr.at[q])), 0, 0);
    if node.first >= 2 { FreeChain(dr, node.first, Strays(dr.View(), node.first)); }
  }

  lemma Removable(dr: Driver, q: Ptr)
    requires dr.Valid() && q in dr.nodes && q != ROOT && dr.nodes[q].parent in dr.nodes && dr.nodes[q].children == []
    ensures dr.nodes[q].parent != q && RemoveStep(dr.tree, dr.View(), q)
    ensures NoRepeats(dr.nodes[dr.nodes[q].parent].children)
    ensures dr.nodes[q].first == 0 || (2 <= dr.nodes[q].first && dr.nodes[q].first in dr.l.chains)
    ensures Lies(dr.l.chains, dr.vol.g.BytesPerCluster(), dr.at[q], dr.nodes[q].dirCluster,
                 Rem(dr.nodes[q].direntOff, dr.vol.g.BytesPerCluster()))
  {
    NodeFacts(dr.tree, dr.View(), q);
    assert LiesThere(dr.l.chains, dr.vol.g.BytesPerCluster(), dr.View(), q);
    assert ChildrenSound(dr.nodes, dr.nodes[q].parent);
    if dr.nodes[q].first != 0 { ChainLink(dr.vol.Fat(), dr.l.chains[dr.nodes[q].first], 0); }
  }

  lemma AllUnlinkedTracked(t: Tree, v: Cache, q: Ptr, d: Ptr)
    requires RemoveStep(t, v, q) && d == v.nodes[q].parent && d != q
    ensures KeepTrack(t, v, UnlinkTree(t, v, q), RemoveNode(v, d, q), {q})
  {
    forall x | Tracked(t, v, x) && x != q
      ensures Tracked(UnlinkTree(t, v, q), RemoveNode(v, d, q), x)
    {
      UnlinkedTracked(t, v, q, d, x);
    }
  }

  // ---- When unlinking loses a chain

  /** An entry that goes takes its chain's only reference with it. */
  lemma EntryLost(t: Tree, v: Cache, q: Ptr, r: Slot)
    requires RemoveStep(t, v, q) && Seen(t, r) && (r == v.at[q] || r.dir == v.nodes[q].first)
    requires FirstOf(EntryOf(t, r)) != 0 && FirstOf(EntryOf(t, r)) != v.nodes[q].first
    ensures var t', g := UnlinkTree(t, v, q), FirstOf(EntryOf(t, r)); g in t'.store && g != t'.root && !Referred(t', g)
  {
    var g := FirstOf(EntryOf(t, r));
    OneEntry(t, r, r, g);
    if Referred(UnlinkTree(t, v, q), g) {
      var r' :| RefersTo(UnlinkTree(t, v, q), r', g);
      InsideAfterUnlink(t, v, q, r');
      OneEntry(t, r, r', g);
    }
  }

  /** Every other chain keeps its reference. */
  lemma StillReferred(t: Tree, v: Cache, q: Ptr, h: nat)
    requires RemoveStep(t, v, q) && LosesNone(t, v.at[q], v.nodes[q].first) && Referred(t, h) && h != 0 && h != v.nodes[q].first
    ensures Referred(UnlinkTree(t, v, q), h)
  {
    hide UnlinkTree, TreeSound, CacheSound;
    var r :| RefersTo(t, r, h);
    InsideAfterUnlink(t, v, q, r);
    assert RefersTo(UnlinkTree(t, v, q), r, h);
  }

  /** Unlinking loses no chain exactly if neither its entry nor any in the chain that goes refers to another one. */
  lemma UnlinkLeakFree(t: Tree, v: Cache, q: Ptr)
    requires RemoveStep(t, v, q) && AllReferred(t, 0)
    ensures AllReferred(UnlinkTree(t, v, q), 0) <==> LosesNone(t, v.at[q], v.nodes[q].first)
  {
    var f := v.nodes[q].first;
    if LosesNone(t, v.at[q], f) {
      forall h | h in UnlinkTree(t, v, q).store && h != t.root && h != 0
        ensures Referred(UnlinkTree(t, v, q), h)
      {
        assert Referred(t, h);
        StillReferred(t, v, q, h);
      }
    } else {
      var r :| Seen(t, r) && (r == v.at[q] || r.dir == f) && FirstOf(EntryOf(t, r)) != 0 && FirstOf(EntryOf(t, r)) != f;
      EntryLost(t, v, q, r);
    }
  }

  lemma NotInItself(t: Tree, v: Cache, q: Ptr)
    requires RemoveStep(t, v, q)
    ensures v.at[q].dir != v.nodes[q].first
  {
    NodeFacts(t, v, q);
  }

  /** The entry of a node that is not in a wild slot refers to the node's chain only; so it is the chain that counts. */
  lemma FirmLosesNone(t: Tree, v: Cache, q: Ptr)
    requires RemoveStep(t, v, q) && v.at[q] !in t.wild
    ensures LosesNone(t, v.at[q], v.nodes[q].first) <==> HoldsNone(t, v.nodes[q].first)
  {
    NodeFacts(t, v, q);
    forall r | RefersTo(t, r, v.nodes[q].first) && v.nodes[q].first != 0
      ensures r == v.at[q]
    {
      OneEntry(t, r, v.at[q], v.nodes[q].first);
    }
    NotInItself(t, v, q);
  }

  /** A file's chain holds no entries, and neither does a directory whose cache is complete and that has no children. */
  lemma EmptyHoldsNone(t: Tree, v: Cache, q: Ptr)
    requires TreeSound(t) && CacheSound(t, v) && q in v.nodes && q != ROOT && v.nodes[q].children == []
    requires v.nodes[q].isDir ==> Complete(t, v, q)
    ensures HoldsNone(t, v.nodes[q].first)
  {
    NodeFacts(t, v, q);
    forall r | Seen(t, r)
      ensures r.dir != v.nodes[q].first
    {}
  }

  // ---- fat32_unlink

  /** The chains once the one that starts at `first`, if any, is gone. */
  function ChainsLeft(chains: map<nat, seq<nat>>, first: nat): map<nat, seq<nat>> {
    if first == 0 then chains else chains - {first}
  }

  function LedgerLeft(l: Ledger, first: nat): Ledger
    requires first == 0 || first in l.chains
  {
    if first == 0 then l else DropChain(l, first)
  }

  /**
   * What unlinking `q` comes to: its entry is marked deleted, its chain is free, its node is gone, and nothing
   * else differs. Every other file keeps its bytes and every other directory that agreed with a scan still does.
   * No chain is lost exactly if neither the entry nor any left in the chain refers to another one.
   */
  ghost predicate Unlinked(t: Tree, v: Cache, l: Ledger, t': Tree, v': Cache, l': Ledger, q: Ptr) {
    && q in v.nodes && v.nodes[q].children == [] && v.nodes[q].parent in v.nodes && q in v.at && Inside(t, v.at[q])
    && (var f := v.nodes[q].first;
        && t' == UnlinkTree(t, v, q) && v' == RemoveNode(v, v.nodes[q].parent, q)
        && (f == 0 || f in l.chains) && l' == LedgerLeft(l, f)
        && OtherFilesKept(t, t', f)
        && (AllReferred(t, 0) ==> (AllReferred(t', 0) <==> LosesNone(t, v.at[q], f))))
    && KeepTrack(t, v, t', v', {q})
  }

  lemma UnlinkedFacts(t: Tree, v: Cache, l: Ledger, q: Ptr, d: Ptr)
    requires RemoveStep(t, v, q) && d == v.nodes[q].parent && d != q
    requires v.nodes[q].first == 0 || v.nodes[q].first in l.chains
    ensures Unlinked(t, v, l, UnlinkTree(t, v, q), RemoveNode(v, d, q), LedgerLeft(l, v.nodes[q].first), q)
  {
    hide TreeSound, CacheSound, UnlinkTree, KeepTrack, OtherFilesKept, AllReferred, LosesNone, LedgerLeft, Inside;
    AllUnlinkedTracked(t, v, q, d);
    UnlinkKeepsFiles(t, v, q);
    if AllReferred(t, 0) { UnlinkLeakFree(t, v, q); }
  }

  /** The part of `fat32_unlink` after the check for an empty directory. */
  method Remove(dr: Driver, q: Ptr)
    requires dr.Valid() && q in dr.nodes && q != ROOT && dr.nodes[q].parent in dr.nodes && dr.nodes[q].children == []
    modifies dr`nodes, dr`at, dr`l, dr`tree, dr.vol`disk, dr.vol.buf
    ensures dr.Valid() && dr.vol.Untouched() == old(dr.vol.Untouched())
    ensures Unlinked(old(dr.tree), old(dr.View()), old(dr.l), dr.tree, dr.View(), dr.l, q)
  {
    hide TreeSound, CacheSound, Settled, Owned, Handles, IsStore, Lies, UnlinkTree, Unlinked, Without, NoRepeats, Inside, PlacesLeft;
    ghost var t, v, l0, d := dr.tree, dr.View(), dr.l, dr.nodes[q].parent;
    Removable(dr, q);
    UnlinkedFacts(t, v, l0, q, d);
    SoundAfterUnlink(t, v, q, d, l0.chains, dr.vol.g.BytesPerCluster(), dr.nextPtr);
    Erase(dr, q);
    Forget(dr, q);
  }

  /** Takes a node out of its parent's children, and lets go of it. */
  method Forget(dr: Driver, q: Ptr)
    requires q in dr.nodes && dr.nodes[q].parent in dr.nodes && NoRepeats(dr.nodes[dr.nodes[q].parent].children)
    modifies dr`nodes, dr`at
    ensures dr.View() == RemoveNode(old(dr.View()), old(dr.nodes)[q].parent, q)
  {
    var d := dr.nodes[q].parent;
    var left := RemoveChild(dr.nodes[d].children, q);
    dr.at := PlacesLeft(dr.View(), q);
    dr.nodes := dr.nodes[d := dr.nodes[d].(children := left)] - {q};
  }

  lemma SoundAfterUnlink(t: Tree, v: Cache, q: Ptr, d: Ptr, chains: map<nat, seq<nat>>, bpc: nat, nextPtr: Ptr)
    requires RemoveStep(t, v, q) && d == v.nodes[q].parent && bpc > 0 && Settled(chains, bpc, v) && Handles(v.nodes, nextPtr)
    ensures var t', v' := UnlinkTree(t, v, q), RemoveNode(v, d, q);
      && t'.root == t.root && TreeSound(t') && CacheSound(t', v') && Handles(v'.nodes, nextPtr)
      && Settled(ChainsLeft(chains, v.nodes[q].first), bpc, v')
  {
    hide TreeSound, CacheSound, Settled, Handles, UnlinkTree, PlacesLeft;
    UnlinkFacts(t, v, q);
    NodeRemoved(t, v, q, d);
    SettledRemove(chains, ChainsLeft(chains, v.nodes[q].first), bpc, t, v, q, d);
    HandlesRemove(v.nodes, nextPtr, d, q);
  }

  /** Nothing that unlinking takes away refers to a chain, unless `q` was loaded with entries missing or is in a wild slot. */
  ghost predicate NothingMissing(t: Tree, v: Cache, q: Ptr) {
    && q in v.nodes && q in v.at && v.at[q] !in t.wild
    && (v.nodes[q].isDir && v.nodes[q].loaded ==> Complete(t, v, q))
  }

  /** Node `q` is a directory that has children, once it is loaded. */
  ghost predicate HasMembers(dr: Driver, q: Ptr)
    requires q in dr.nodes
    reads dr
  {
    dr.nodes[q].isDir &&
    if dr.nodes[q].loaded then dr.nodes[q].children != [] else
    var head := HeadOf(dr.tree.root, dr.nodes[q]);
    head in dr.tree.store && LongNamesFit(dr.tree.store[head]) && Scan(dr.tree.store[head], 0, Idle) != []
  }

  /** `fat32_unlink`: fails exactly for directories that have children, and then changes nothing on disk. */
  method Unlink(dr: Driver, q: Ptr) returns (n: int)
    requires dr.Valid() && q in dr.nodes && q != ROOT && dr.nodes[q].parent in dr.nodes
    modifies dr`nodes, dr`nextPtr, dr`at, dr`holder, dr`l, dr`tree, dr.vol`disk, dr.vol.buf
    ensures dr.Valid() && dr.vol.Untouched() == old(dr.vol.Untouched())
    ensures n == 0 || n == ERR_NOEMPTY
    ensures n == ERR_NOEMPTY ==>
      && dr.tree == old(dr.tree) && dr.l == old(dr.l) && Grew(old(dr.nodes), dr.nodes, q)
      && dr.nodes[q].isDir && dr.nodes[q].children != []
      && KeepTrack(old(dr.tree), old(dr.View()), dr.tree, dr.View(), {})
    ensures n == 0 ==> Unlinked(old(dr.tree), old(dr.View()), old(dr.l), dr.tree, dr.View(), dr.l, q)
    ensures n == 0 && NothingMissing(old(dr.tree), old(dr.View()), q) ==> LosesNone(old(dr.tree), old(dr.at)[q], old(dr.nodes)[q].first)
    ensures StaysSmall(old(dr.tree), old(dr.View()), dr.tree, dr.View())
    ensures n == ERR_NOEMPTY <==> old(HasMembers(dr, q))
  {
    hide TreeSound, CacheSound, Settled, Owned, Handles, IsStore, OthersAgree, Listed, PlacesKept, PlacesSame, KeepTrack,
         Unlinked, LongNamesFit,
         Grew, SameButLoaded, EndsOnce, NothingMissing, LosesNone, Scan, SmallDirs;
    ghost var t, v0 := dr.tree, dr.View();
    SoundParts(dr);
    if dr.nodes[q].isDir {
      Load(dr, q);
      GrewHead(v0.nodes, dr.nodes, q);
      if !v0.nodes[q].loaded { ListedNone(dr.View(), t.root, q, Scan(t.store[HeadOf(t.root, v0.nodes[q])], 0, Idle)); }
      if dr.nodes[q].children != [] { return ERR_NOEMPTY; }
      SoundParts(dr);
      NodePlaced(t, dr.View(), q);
      if !v0.nodes[q].loaded { ListedAll(dr.View(), t.root, q, Scan(t.store[HeadOf(t.root, v0.nodes[q])], 0, Idle)); }
      NoNewNodes(t, v0, dr.View(), q);
    } else {
      FileHasNoChildren(t, v0, q);
      NodePlaced(t, v0, q);
      NothingLost(t, v0, {});
    }
    ghost var v, l := dr.View(), dr.l;
    Removable(dr, q);
    EmptyLosesNone(t, v0, v, q);
    Remove(dr, q);
    UnlinkedSmall(t, v, l, dr.tree, dr.View(), dr.l, q);
    UnlinkedFrom(t, v0, v, l, dr.tree, dr.View(), dr.l, q);
    n := 0;
  }

  /** The directory that goes was loaded; the others have what they had. */
  lemma UnlinkedSmall(t: Tree, v: Cache, l: Ledger, t': Tree, v': Cache, l': Ledger, q: Ptr)
    requires RemoveStep(t, v, q) && Unlinked(t, v, l, t', v', l', q)
    ensures StaysSmall(t, v, t', v')
  {
    hide CacheSound, EntriesSound, WildSound, Complete, UnlinkTree, AllReferred, KeepTrack, OtherFilesKept, LosesNone;
    var d := v.nodes[q].parent;
    ParentElsewhere(t, v, q);
    forall e | e in v'.nodes && v'.nodes[e].isDir && v'.nodes[e].loaded && Complete(t, v, e)
      ensures Complete(t', v', e)
    {
      RemovedComplete(t, v, d, q, e);
    }
    forall h | h in t'.dirs && NotLoaded(v', t'.root, h)
      ensures h in t'.store && h in t.dirs && NotLoaded(v, t.root, h) && t'.store[h] == t.store[h]
    {
      UnlinkedElsewhere(t, v, q, h);
    }
    SmallKept(t, v, t', v');
  }

  lemma UnlinkedElsewhere(t: Tree, v: Cache, q: Ptr, h: nat)
    requires RemoveStep(t, v, q) && h in UnlinkTree(t, v, q).dirs
    requires NotLoaded(RemoveNode(v, v.nodes[q].parent, q), UnlinkTree(t, v, q).root, h)
    ensures var t' := UnlinkTree(t, v, q); h in t'.store && h in t.dirs && NotLoaded(v, t.root, h) && t'.store[h] == t.store[h]
  {
    NodeFacts(t, v, q);
    UnlinkFacts(t, v, q);
    var v' := RemoveNode(v, v.nodes[q].parent, q);
    forall e | e in v.nodes && v.nodes[e].isDir && v.nodes[e].loaded
      ensures HeadOf(t.root, v.nodes[e]) != h
    {
      if e == q { HeadGone(t, v, q); } else { assert e in v'.nodes && HeadOf(t.root, v'.nodes[e]) == HeadOf(t.root, v.nodes[e]); }
    }
  }

  lemma HeadGone(t: Tree, v: Cache, q: Ptr)
    requires RemoveStep(t, v, q) && v.nodes[q].isDir
    ensures HeadOf(t.root, v.nodes[q]) !in UnlinkTree(t, v, q).dirs
  {
    NodeFacts(t, v, q);
  }

  lemma EmptyLosesNone(t: Tree, v0: Cache, v: Cache, q: Ptr)
    requires RemoveStep(t, v, q) && SameButLoaded(v0, v, q)
    requires var h := HeadOf(t.root, v.nodes[q]);
      v.nodes[q].isDir && !v0.nodes[q].loaded ==> h in t.store && LongNamesFit(t.store[h]) && Listed(v, t.root, q, Scan(t.store[h], 0, Idle))
    requires v.nodes[q].isDir ==> v.nodes[q].loaded
    ensures NothingMissing(t, v0, q) ==> LosesNone(t, v0.at[q], v0.nodes[q].first)
  {
    hide LosesNone, Listed;
    if NothingMissing(t, v0, q) {
      if v.nodes[q].isDir && !v0.nodes[q].loaded {
        ListedCount(v, t.root, q, Scan(t.store[HeadOf(t.root, v.nodes[q])], 0, Idle));
        LoadedEmpty(t, v, q);
      }
      if v.nodes[q].isDir && v0.nodes[q].loaded { assert v == v0; }
      EmptyHoldsNone(t, v, q);
      FirmLosesNone(t, v, q);
    }
  }

  lemma ListedNone(c: Cache, root: nat, d: Ptr, found: seq<Found>)
    requires Listed(c, root, d, found)
    ensures d in c.nodes && (c.nodes[d].children == [] <==> found == [])
  {}

  lemma ListedAll(c: Cache, root: nat, d: Ptr, found: seq<Found>)
    requires Listed(c, root, d, found)
    ensures AllListed(c.nodes, d)
  {}

  /** Loading a directory that turns out to be empty only marks it. */
  lemma NoNewNodes(t: Tree, v0: Cache, v: Cache, q: Ptr)
    requires CacheSound(t, v) && Grew(v0.nodes, v.nodes, q) && v.nodes[q].children == [] && CacheSound(t, v0)
    requires PlacesSame(v0, v) && q != ROOT
    requires v0.nodes[q].loaded ==> v == v0
    requires !v0.nodes[q].loaded ==> AllListed(v.nodes, q)
    requires q in v.at && v.nodes[q].parent != q
    ensures SameButLoaded(v0, v, q)
  {
    hide CacheSound;
    if !v0.nodes[q].loaded {
      NotLoadedIsEmpty(t, v0, q);
      NodesSame(t, v0, v, q);
    }
  }

  lemma NodePlaced(t: Tree, v: Cache, q: Ptr)
    requires CacheSound(t, v) && q in v.nodes && q != ROOT && v.nodes[q].parent in v.nodes
    ensures q in v.at && v.nodes[q].parent != q && SameButLoaded(v, v, q)
  {
    assert NodeSound(t, v, q);
  }

  lemma NodesSame(t: Tree, v0: Cache, v: Cache, q: Ptr)
    requires CacheSound(t, v) && Grew(v0.nodes, v.nodes, q) && v.nodes[q].children == [] && CacheSound(t, v0) && AllListed(v.nodes, q)
    ensures v.nodes.Keys == v0.nodes.Keys
  {
    forall p | p in v.nodes
      ensures p in v0.nodes
    {}
  }

  /** Nothing differs but, perhaps, that `q` is loaded. */
  ghost predicate SameButLoaded(v0: Cache, v: Cache, q: Ptr) {
    && q in v0.nodes && q in v.nodes && v.nodes == v0.nodes[q := v0.nodes[q].(loaded := v.nodes[q].loaded)]
    && v.at == v0.at && v.holder == v0.holder && q in v.at && v.nodes[q].parent != q
  }

  lemma UnlinkedFrom(t: Tree, v0: Cache, v: Cache, l: Ledger, t': Tree, v': Cache, l': Ledger, q: Ptr)
    requires SameButLoaded(v0, v, q) && KeepTrack(t, v0, t, v, {}) && Unlinked(t, v, l, t', v', l', q)
    ensures Unlinked(t, v0, l, t', v', l', q)
  {
    hide AllReferred, LosesNone, OtherFilesKept, LedgerLeft, Inside, Tracked;
    KeepTrackTrans(t, v0, t, v, t', v', {q});
    assert Strays(v, v.nodes[q].first) == Strays(v0, v.nodes[q].first);
    assert Orphan(v.nodes, v.nodes[q].parent, q) == Orphan(v0.nodes, v0.nodes[q].parent, q);
  }

  lemma FileHasNoChildren(t: Tree, c: Cache, q: Ptr)
    requires CacheSound(t, c) && q in c.nodes && !c.nodes[q].isDir
    ensures c.nodes[q].children == []
  {
    assert ChildrenSound(c.nodes, q);
  }
}
