/** Directories in the FAT32 driver: scanning one into the node cache, and looking a name up. */
module FatDirs {
  import opened Bytes
  import opened FileSpec
  import opened FatVolume
  import opened FatTable
  import opened FatChains
  import opened FatFile
  import opened FatNames
  import opened FatEntries
  import opened FatLongNames
  import opened FatTree
  import opened FatNodes
  import opened FatScan
  import opened FatStore
  import opened FatDriver

  /** Nodes were added below directory `d` and nothing else changed. */
  ghost predicate Grew(nodes: map<Ptr, Node>, nodes': map<Ptr, Node>, d: Ptr) {
    && d in nodes && nodes.Keys <= nodes'.Keys
    && (forall q :: q in nodes && q != d ==> nodes'[q] == nodes[q])
    && nodes'[d] == nodes[d].(children := nodes'[d].children, loaded := nodes'[d].loaded)
    && forall q :: q in nodes' && q !in nodes ==> nodes'[q].parent == d && !nodes'[q].loaded && InStep(nodes'[q])
  }

  /** Both copies of every node's size agree. */
  ghost predicate AllInStep(nodes: map<Ptr, Node>) { forall p :: p in nodes ==> InStep(nodes[p]) }

  lemma GrewInStep(nodes: map<Ptr, Node>, nodes': map<Ptr, Node>, d: Ptr)
    requires Grew(nodes, nodes', d)
    ensures AllInStep(nodes) ==> AllInStep(nodes')
  {}

  ghost predicate AllListed(nodes: map<Ptr, Node>, d: Ptr) {
    d in nodes && forall q :: q in nodes && q != ROOT && nodes[q].parent == d ==> q in nodes[d].children
  }

  /** The children of `d` are the first 128 of the entries found, in that order, and there are no other nodes below `d`. */
  ghost predicate Listed(c: Cache, root: nat, d: Ptr, found: seq<Found>) {
    && AllListed(c.nodes, d) && |c.nodes[d].children| == Min(|found|, MAX_CHILDREN)
    && forall i :: 0 <= i < |c.nodes[d].children| ==> ListedAs(c, HeadOf(root, c.nodes[d]), c.nodes[d].children[i], found[i])
  }

  ghost predicate ListedAs(c: Cache, head: nat, p: Ptr, f: Found) {
    && p in c.nodes && p != ROOT && p in c.at && c.at[p] == Slot(head, f.pos) && c.nodes[p].name == NodeName(f.name)
    && InStep(c.nodes[p])
    && c.at[p] in c.holder && c.holder[c.at[p]] == p
  }

  /** All other directories agree with the disk as much as they did. */
  ghost predicate OthersAgree(t: Tree, c: Cache, c': Cache, d: Ptr) {
    && (forall e :: e in c.nodes && e != d && c.nodes[e].isDir && Complete(t, c, e) ==> e in c'.nodes && Complete(t, c', e))
    && (forall e :: e in c.nodes && e != d && NamesAgree(t, c, e) ==> e in c'.nodes && NamesAgree(t, c', e))
  }

  /** Nodes keep their entries. */
  ghost predicate PlacesKept(c: Cache, c': Cache) {
    forall p :: p in c.nodes && p in c.at ==> p in c'.at && c'.at[p] == c.at[p]
  }

  /** Only new nodes change anything about that. */
  ghost predicate PlacesSame(c: Cache, c': Cache) {
    c'.nodes.Keys == c.nodes.Keys ==> c'.at == c.at && c'.holder == c.holder
  }

  lemma PlacesKeptAdd(c0: Cache, c: Cache, d: Ptr, p: Ptr, s: Slot, n: Node)
    requires PlacesKept(c0, c) && PlacesSame(c0, c) && c0.nodes.Keys <= c.nodes.Keys && p !in c.nodes && d in c.nodes
    ensures PlacesKept(c0, AddNode(c, d, p, s, n)) && PlacesSame(c0, AddNode(c, d, p, s, n))
  {
    assert p in AddNode(c, d, p, s, n).nodes.Keys;
  }

  ghost predicate Before(found: seq<Found>, pos: nat) {
    forall i :: 0 <= i < |found| ==> found[i].pos < pos
  }

  /** Nothing in the cache claims an entry the scan has not come to. */
  lemma VacantBeyond(t: Tree, c: Cache, d: Ptr, found: seq<Found>, pos: nat)
    requires TreeSound(t) && CacheSound(t, c) && d in c.nodes && c.nodes[d].isDir
    requires Listed(c, t.root, d, found) && Before(found, pos)
    ensures Vacant(c, Slot(HeadOf(t.root, c.nodes[d]), pos))
  {
    forall q | q in c.nodes && q != ROOT && q in c.at
      ensures c.at[q] != Slot(HeadOf(t.root, c.nodes[d]), pos)
    {
      if c.at[q].dir == HeadOf(t.root, c.nodes[d]) {
        EntryInDir(t, c, d, q);
        var i :| 0 <= i < |c.nodes[d].children| && c.nodes[d].children[i] == q;
        assert ListedAs(c, HeadOf(t.root, c.nodes[d]), q, found[i]);
      }
    }
  }

  lemma ListedMore(t: Tree, c: Cache, d: Ptr, found: seq<Found>, p: Ptr, f: Found, n: Node)
    requires Listed(c, t.root, d, found) && |found| < MAX_CHILDREN && p !in c.nodes && p != ROOT && n.name == NodeName(f.name)
    requires Before(found, f.pos) && NoRepeats(c.nodes[d].children) && n.parent == d && InStep(n)
    ensures Listed(AddNode(c, d, p, Slot(HeadOf(t.root, c.nodes[d]), f.pos), n), t.root, d, found + [f])
  {
    var head := HeadOf(t.root, c.nodes[d]);
    var c' := AddNode(c, d, p, Slot(head, f.pos), n);
    assert c'.nodes[d].children == c.nodes[d].children + [p];
    assert p in c'.nodes[d].children by { assert (c.nodes[d].children + [p])[|c.nodes[d].children|] == p; }
    forall q | q in c'.nodes && q != ROOT && c'.nodes[q].parent == d
      ensures q in c'.nodes[d].children
    {
      if q != p { assert q in c.nodes[d].children; }
    }
    forall i | 0 <= i < |c'.nodes[d].children|
      ensures ListedAs(c', head, c'.nodes[d].children[i], (found + [f])[i])
    {
      if i < |c.nodes[d].children| { assert ListedAs(c, head, c.nodes[d].children[i], found[i]); }
    }
  }

  lemma ListedFull(t: Tree, c: Cache, d: Ptr, found: seq<Found>, f: Found)
    requires Listed(c, t.root, d, found) && |found| >= MAX_CHILDREN
    ensures Listed(c, t.root, d, found + [f])
  {}

  lemma OthersAgreeAdd(t: Tree, c0: Cache, c: Cache, d: Ptr, p: Ptr, s: Slot, n: Node)
    requires TreeSound(t) && OthersAgree(t, c0, c, d) && AddStep(t, c, d, p, s, n)
    requires forall e :: e in c0.nodes && e in c.nodes ==> c.nodes[e].isDir == c0.nodes[e].isDir
    ensures OthersAgree(t, c0, AddNode(c, d, p, s, n), d)
  {
    hide TreeSound;
    var c' := AddNode(c, d, p, s, n);
    forall e | e in c0.nodes && e != d && c0.nodes[e].isDir && Complete(t, c0, e)
      ensures e in c'.nodes && Complete(t, c', e)
    {
      if s.dir == HeadOf(t.root, c.nodes[e]) { HeadUnique(t, c, d, e); }
      AddedComplete(t, c, d, p, s, n, e);
    }
    forall e | e in c0.nodes && e != d && NamesAgree(t, c0, e)
      ensures e in c'.nodes && NamesAgree(t, c', e)
    {
      AddedNames(t, c, d, p, s, n, e);
    }
  }

  lemma GrewMore(n0: map<Ptr, Node>, nodes: map<Ptr, Node>, d: Ptr, p: Ptr, n: Node)
    requires Grew(n0, nodes, d) && p !in nodes && n.parent == d && !n.loaded && InStep(n)
    ensures Grew(n0, Adopt(nodes, d, p, n), d)
  {}

  lemma SettledAdd(chains: map<nat, seq<nat>>, bpc: nat, c: Cache, d: Ptr, p: Ptr, s: Slot, n: Node)
    requires bpc > 0 && Settled(chains, bpc, c) && d in c.nodes && p !in c.nodes && p != d
    requires Lies(chains, bpc, s, n.dirCluster, Rem(n.direntOff, bpc))
    ensures Settled(chains, bpc, AddNode(c, d, p, s, n))
  {
    var c' := AddNode(c, d, p, s, n);
    forall q | q in c'.nodes && q != ROOT && q in c'.at
      ensures LiesThere(chains, bpc, c', q)
    {
      if q != p { assert LiesThere(chains, bpc, c, q); }
    }
  }

  lemma HandlesAdd(nodes: map<Ptr, Node>, nextPtr: Ptr, d: Ptr, n: Node)
    requires Handles(nodes, nextPtr) && d in nodes
    ensures nextPtr !in nodes && Handles(Adopt(nodes, d, nextPtr, n), nextPtr + 1)
  {}

  /** `make_node` for an entry, and its place among the children of `d`. */
  method AddChild(dr: Driver, d: Ptr, name: seq<byte>, e: Entry, cluster: nat, direntOff: nat, ghost s: Slot) returns (p: Ptr)
    requires dr.Valid() && d in dr.nodes && dr.nodes[d].isDir && dr.nodes[d].loaded
    requires s.dir == HeadOf(dr.tree.root, dr.nodes[d]) && Seen(dr.tree, s) && e == EntryOf(dr.tree, s) && Vacant(dr.View(), s)
    requires s !in dr.tree.wild
    requires Lies(dr.l.chains, dr.vol.g.BytesPerCluster(), s, cluster, Rem(direntOff, dr.vol.g.BytesPerCluster()))
    modifies dr`nodes, dr`nextPtr, dr`at, dr`holder
    ensures dr.Valid() && p != NULL && p !in old(dr.nodes)
    ensures var n := NewNode(NodeName(name), e, cluster, direntOff, d);
      AddStep(dr.tree, old(dr.View()), d, p, s, n) && dr.View() == AddNode(old(dr.View()), d, p, s, n)
  {
    hide TreeSound, CacheSound, Settled, Owned, IsStore, Handles, Lies, Vacant, Shows;
    p := dr.nextPtr;
    var n := NewNode(NodeName(name), e, cluster, direntOff, d);
    ghost var v := dr.View();
    HandlesAdd(dr.nodes, p, d, n);
    SettledAdd(dr.l.chains, dr.vol.g.BytesPerCluster(), v, d, p, s, n);
    RootBelow(dr.tree, v, p);
    NodeAdded(dr.tree, v, d, p, s, n);
    dr.nextPtr := p + 1;
    dr.at := dr.at[p := s];
    dr.holder := dr.holder[s := p];
    dr.nodes := Adopt(dr.nodes, d, p, n);
  }

  lemma RootBelow(t: Tree, c: Cache, nextPtr: Ptr)
    requires CacheSound(t, c) && Handles(c.nodes, nextPtr)
    ensures nextPtr != NULL && forall q :: q in c.nodes ==> q < nextPtr
  {}

  function NewNode(name: seq<byte>, e: Entry, cluster: nat, direntOff: nat, parent: Ptr): Node {
    Node(name, IsDir(e), SizeOf(e), FirstOf(e), SizeOf(e), cluster, direntOff, parent, [], false)
  }

  // ---- Scanning

  /** The name buffer, as far as it counts. */
  function PendingOf(pending: bool, buf: seq<byte>): (p: Pending)
    requires |buf| == NAME_BUF
    ensures PendingOk(p)
  {
    if pending then Collecting(buf) else Idle
  }

  /** A scan of `d` that has found `found` so far, since the cache was `c0`. */
  ghost predicate Loading(dr: Driver, d: Ptr, found: seq<Found>, c0: Cache)
    reads dr, dr.vol
  {
    && dr.Valid() && d in dr.nodes && dr.nodes[d].isDir && dr.nodes[d].loaded && NoWildIn(dr.tree, HeadOf(dr.tree.root, dr.nodes[d]))
    && Grew(c0.nodes, dr.nodes, d) && PlacesKept(c0, dr.View()) && PlacesSame(c0, dr.View())
    && Listed(dr.View(), dr.tree.root, d, found)
    && OthersAgree(dr.tree, c0, dr.View(), d)
  }

  /** The scan stands at `pos`: what it has found and what it will find is what there is. */
  ghost predicate Halfway(b: seq<byte>, pos: nat, found: seq<Found>, p: Pending) {
    && LongNamesFit(b) && pos % ENTRY == 0 && PendingOk(p)
    && Before(found, pos)
    && Scan(b, 0, Idle) == found + Scan(b, pos, p)
  }

  lemma HalfwaySkip(b: seq<byte>, pos: nat, found: seq<Found>, p: Pending)
    requires Halfway(b, pos, found, p) && EntryPos(b, pos) && EntryAt(b, pos)[0] != 0 && !Shows(EntryAt(b, pos))
    ensures IsLongNamePart(EntryAt(b, pos)) ==>
      LfnFits(EntryAt(b, pos)) && Halfway(b, pos + ENTRY, found, Collect(p, EntryAt(b, pos)))
    ensures !IsLongNamePart(EntryAt(b, pos)) ==> Halfway(b, pos + ENTRY, found, Idle)
  {}

  lemma ScanHere(b: seq<byte>, pos: nat, p: Pending)
    requires LongNamesFit(b) && pos % ENTRY == 0 && PendingOk(p) && EntryPos(b, pos) && Shows(EntryAt(b, pos))
    ensures Scan(b, pos, p) == [Found(pos, FoundName(p, EntryAt(b, pos)))] + Scan(b, pos + ENTRY, Idle)
  {}

  lemma Regroup<T>(a: seq<T>, x: T, b: seq<T>)
    ensures a + ([x] + b) == a + [x] + b
  {}

  lemma HalfwayFound(b: seq<byte>, pos: nat, found: seq<Found>, p: Pending)
    requires Halfway(b, pos, found, p) && EntryPos(b, pos) && Shows(EntryAt(b, pos))
    ensures Halfway(b, pos + ENTRY, found + [Found(pos, FoundName(p, EntryAt(b, pos)))], Idle)
  {
    hide Scan, FoundName, LongNamesFit, Shows, EntryAt, NameOf;
    ScanHere(b, pos, p);
    Regroup(found, Found(pos, FoundName(p, EntryAt(b, pos))), Scan(b, pos + ENTRY, Idle));
  }

  lemma HalfwayEnd(b: seq<byte>, pos: nat, found: seq<Found>, p: Pending)
    requires Halfway(b, pos, found, p) && (!EntryPos(b, pos) || EntryAt(b, pos)[0] == 0)
    ensures Scan(b, 0, Idle) == found
  {
    assert found + [] == found;
  }

  /** The directory's bytes, in which `e` is the entry at `pos`, and where that entry lies. */
  ghost predicate Entered(dr: Driver, head: nat, pos: nat, e: Entry, cluster: nat, off: nat)
    reads dr, dr.vol
  {
    && head in dr.tree.dirs && head in dr.tree.store && EntryPos(dr.tree.store[head], pos)
    && e == EntryAt(dr.tree.store[head], pos)
    && off < dr.vol.g.BytesPerCluster()
    && Lies(dr.l.chains, dr.vol.g.BytesPerCluster(), Slot(head, pos), cluster, off)
  }

  /** An entry that names a file or directory becomes a node, while there is room for one more child. */
  method TakeEntry(dr: Driver, d: Ptr, e: Entry, name: seq<byte>, cluster: nat, off: nat,
                   ghost pos: nat, ghost found: seq<Found>, ghost c0: Cache)
    requires Loading(dr, d, found, c0) && Before(found, pos) && Shows(e)
    requires Entered(dr, HeadOf(dr.tree.root, dr.nodes[d]), pos, e, cluster, off)
    modifies dr`nodes, dr`nextPtr, dr`at, dr`holder
    ensures Loading(dr, d, found + [Found(pos, name)], c0)
    ensures HeadOf(dr.tree.root, dr.nodes[d]) == HeadOf(dr.tree.root, old(dr.nodes)[d])
  {
    hide TreeSound, CacheSound, Settled, Owned, IsStore, Handles, Lies, Vacant, Listed, OthersAgree, Before, Grew,
         PlacesKept, PlacesSame, EntryOffset;
    ghost var s, v, t := Slot(HeadOf(dr.tree.root, dr.nodes[d]), pos), dr.View(), dr.tree;
    if |dr.nodes[d].children| < MAX_CHILDREN {
      VacantBeyond(t, v, d, found, pos);
      OffsetRecovered(dr.vol.g, cluster, off);
      var p := AddChild(dr, d, name, e, cluster, EntryOffset(dr.vol.g, cluster, off), s);
      ghost var n := NewNode(NodeName(name), e, cluster, EntryOffset(dr.vol.g, cluster, off), d);
      ListedCount(v, t.root, d, found);
      AddedFacts(t, v, c0, d, p);
      ListedMore(t, v, d, found, p, Found(pos, name), n);
      OthersAgreeAdd(t, c0, v, d, p, s, n);
      GrewMore(c0.nodes, v.nodes, d, p, n);
      GrewKeys(c0.nodes, v.nodes, d);
      PlacesKeptAdd(c0, v, d, p, s, n);
    } else {
      ListedCount(v, t.root, d, found);
      ListedFull(t, v, d, found, Found(pos, name));
    }
  }

  lemma AddedFacts(t: Tree, c: Cache, c0: Cache, d: Ptr, p: Ptr)
    requires CacheSound(t, c) && d in c.nodes && p !in c.nodes && Grew(c0.nodes, c.nodes, d)
    ensures p != ROOT && NoRepeats(c.nodes[d].children)
    ensures forall e :: e in c0.nodes && e in c.nodes ==> c.nodes[e].isDir == c0.nodes[e].isDir
  {
    assert ChildrenSound(c.nodes, d);
  }

  lemma GrewKeys(nodes: map<Ptr, Node>, nodes': map<Ptr, Node>, d: Ptr)
    requires Grew(nodes, nodes', d)
    ensures nodes.Keys <= nodes'.Keys
  {}

  lemma ListedCount(c: Cache, root: nat, d: Ptr, found: seq<Found>)
    requires Listed(c, root, d, found)
    ensures d in c.nodes && (|c.nodes[d].children| < MAX_CHILDREN <==> |found| < MAX_CHILDREN)
  {}

  /** The short name of an entry, as the C string the driver keeps. */
  method ShortNameOf(e: Entry) returns (name: seq<byte>)
    ensures name == NameOf(e)
  {
    var out := ParseName(ShortName(e[..8], e[8..11]));
    name := CStr(out);
  }

  /** One step of the scan. */
  method ScanEntry(dr: Driver, d: Ptr, e: Entry, cluster: nat, off: nat, lfnBuf: array<byte>, pending: bool,
                   ghost b: seq<byte>, ghost pos: nat, ghost found: seq<Found>, ghost c0: Cache)
    returns (pending': bool, done: bool, ghost found': seq<Found>)
    requires Loading(dr, d, found, c0) && lfnBuf.Length == NAME_BUF && lfnBuf != dr.vol.buf
    requires HeadOf(dr.tree.root, dr.nodes[d]) in dr.tree.store && b == dr.tree.store[HeadOf(dr.tree.root, dr.nodes[d])]
    requires Entered(dr, HeadOf(dr.tree.root, dr.nodes[d]), pos, e, cluster, off)
    requires Halfway(b, pos, found, PendingOf(pending, lfnBuf[..]))
    modifies dr`nodes, dr`nextPtr, dr`at, dr`holder, lfnBuf
    ensures Loading(dr, d, found', c0) && HeadOf(dr.tree.root, dr.nodes[d]) == HeadOf(dr.tree.root, old(dr.nodes)[d])
    ensures done ==> Scan(b, 0, Idle) == found'
    ensures !done ==> Halfway(b, pos + ENTRY, found', PendingOf(pending', lfnBuf[..]))
  {
    hide Loading, Scan, Lies, LongNamesFit, LfnPut, LfnFits, NameOf;
    found', pending', done := found, false, false;
    ghost var p := PendingOf(pending, lfnBuf[..]);
    if e[0] == 0 {
      HalfwayEnd(b, pos, found, p);
      done := true;
    } else if e[0] != DELETED && AttrOf(e) == ATTR_LFN {
      HalfwaySkip(b, pos, found, p);
      pending' := pending;
      if IsLast(e) {
        forall i | 0 <= i < NAME_BUF { lfnBuf[i] := 0; }
        assert lfnBuf[..] == Zeros(NAME_BUF);
        pending' := true;
      }
      if pending' { LfnToAscii(e, lfnBuf); }
    } else if e[0] == DELETED || IsVolumeId(e) || e[0] == DOT {
      HalfwaySkip(b, pos, found, p);
    } else {
      var name: seq<byte>;
      if pending && lfnBuf[0] != 0 {
        name := CStr(lfnBuf[..NAME_BUF - 1]);
      } else {
        name := ShortNameOf(e);
      }
      HalfwayFound(b, pos, found, p);
      assert lfnBuf[..][..NAME_BUF - 1] == lfnBuf[..NAME_BUF - 1];
      assert name == FoundName(p, e);
      TakeEntry(dr, d, e, name, cluster, off, pos, found, c0);
      found' := found + [Found(pos, name)];
    }
  }

  lemma DirsInStore(t: Tree, d: nat)
    requires TreeSound(t) && d in t.dirs
    ensures d in t.store && DirBytes(t.store[d])
  {}

  lemma OffsetParts(spc: nat, s: nat, i: nat)
    requires s < spc && i < 16
    ensures (s * 512 + i * 32) / 512 == s && (s * 512 + i * 32) % 512 == i * 32 && (s * 512 + i * 32) % 32 == 0
    ensures s * 512 + i * 32 < spc * 512
  {}

  /** The entry at `o` of sector `s` of the `k`-th cluster of a directory. */
  lemma EntryThere(dr: Driver, head: nat, k: nat, cluster: nat, off: nat, pos: nat, s: nat, o: nat)
    requires dr.OnDisk() && TreeSound(dr.tree) && head in dr.tree.dirs && head in dr.l.chains
    requires off < dr.vol.g.BytesPerCluster() && off % ENTRY == 0 && off / 512 == s && off % 512 == o
    requires LiesAt(dr.l.chains[head], dr.vol.g.BytesPerCluster(), pos, cluster, off, k)
    ensures dr.vol.g.Cluster(cluster) && dr.vol.g.Lba(cluster) + s < |dr.vol.disk| && o + ENTRY <= 512
    ensures Entered(dr, head, pos, dr.vol.disk[dr.vol.g.Lba(cluster) + s][o..o + ENTRY], cluster, off)
  {
    InsideHere(dr, Slot(head, pos), cluster, off, k);
    hide TreeSound, Owned, IsStore, Base, Lies, Entered, EntryOf;
    SlotSector(dr.vol, dr.l, Slot(head, pos), cluster, off, dr.tree);
    EnteredThere(dr, Slot(head, pos), EntryOf(dr.tree, Slot(head, pos)), cluster, off);
  }

  lemma EnteredThere(dr: Driver, s: Slot, e: Entry, cluster: nat, off: nat)
    requires Inside(dr.tree, s) && e == EntryOf(dr.tree, s) && off < dr.vol.g.BytesPerCluster()
    requires Lies(dr.l.chains, dr.vol.g.BytesPerCluster(), s, cluster, off)
    ensures Entered(dr, s.dir, s.pos, e, cluster, off)
  {}

  lemma InsideHere(dr: Driver, s: Slot, cluster: nat, off: nat, k: nat)
    requires dr.OnDisk() && TreeSound(dr.tree) && s.dir in dr.tree.dirs && s.dir in dr.l.chains
    requires off < dr.vol.g.BytesPerCluster() && off % ENTRY == 0
    requires LiesAt(dr.l.chains[s.dir], dr.vol.g.BytesPerCluster(), s.pos, cluster, off, k)
    ensures Lies(dr.l.chains, dr.vol.g.BytesPerCluster(), s, cluster, off) && Inside(dr.tree, s)
  {
    StoreAt(dr.vol, dr.l, dr.tree.store, s.dir);
    hide TreeSound, Owned, IsStore, FileBytes, Base;
    var k' := SlotBounds(dr.vol, dr.l, s, cluster, off);
  }

  /** The scan of directory `head` stands at `pos`, unless it is over. */
  ghost predicate Scanning(dr: Driver, d: Ptr, head: nat, done: bool, pos: nat, found: seq<Found>, p: Pending, c0: Cache)
    reads dr, dr.vol
  {
    && Loading(dr, d, found, c0) && head == HeadOf(dr.tree.root, dr.nodes[d])
    && head in dr.tree.dirs && head in dr.tree.store && head in dr.l.chains
    && LongNamesFit(dr.tree.store[head])
    && if done then Scan(dr.tree.store[head], 0, Idle) == found else Halfway(dr.tree.store[head], pos, found, p)
  }

  method ScanSector(dr: Driver, d: Ptr, cluster: nat, s: nat, lfnBuf: array<byte>, pending0: bool,
                    ghost head: nat, ghost k: nat, ghost found0: seq<Found>, ghost c0: Cache)
    returns (pending: bool, done: bool, ghost found: seq<Found>)
    requires lfnBuf.Length == NAME_BUF && lfnBuf != dr.vol.buf
    requires Scanning(dr, d, head, false, Base(dr.vol.g.BytesPerCluster(), k) + s * 512, found0, PendingOf(pending0, lfnBuf[..]), c0)
    requires k < |dr.l.chains[head]| && cluster == dr.l.chains[head][k] && s < dr.vol.g.spc
    modifies dr`nodes, dr`nextPtr, dr`at, dr`holder, lfnBuf, dr.vol.buf
    ensures Scanning(dr, d, head, done, Base(dr.vol.g.BytesPerCluster(), k) + s * 512 + 512, found, PendingOf(pending, lfnBuf[..]), c0)
  {
    hide TreeSound, CacheSound, Settled, Owned, IsStore, Grew, Listed, OthersAgree, Halfway, Scan, LongNamesFit, Entered, PendingOf;
    ghost var base := Base(dr.vol.g.BytesPerCluster(), k) + s * 512;
    OffsetParts(dr.vol.g.spc, s, 0);
    EntryThere(dr, head, k, cluster, s * 512, base, s, 0);
    dr.vol.ReadSector(dr.vol.g.Lba(cluster) + s);
    pending, done, found := pending0, false, found0;
    var i: nat := 0;
    while i < 16 && !done
      invariant i <= 16 && dr.vol.buf[..] == dr.vol.disk[dr.vol.g.Lba(cluster) + s]
      invariant Scanning(dr, d, head, done, base + i * 32, found, PendingOf(pending, lfnBuf[..]), c0)
    {
      OffsetParts(dr.vol.g.spc, s, i);
      EntryThere(dr, head, k, cluster, s * 512 + i * 32, base + i * 32, s, i * 32);
      var e := dr.vol.buf[i * 32..i * 32 + 32];
      assert e == dr.vol.disk[dr.vol.g.Lba(cluster) + s][i * 32..i * 32 + 32];
      pending, done, found := ScanEntry(dr, d, e, cluster, s * 512 + i * 32, lfnBuf, pending,
                                        dr.tree.store[head], base + i * 32, found, c0);
      i := i + 1;
    }
  }

  lemma ScanningEnds(dr: Driver, d: Ptr, head: nat, k: nat, found: seq<Found>, p: Pending, c0: Cache)
    requires Scanning(dr, d, head, false, Base(dr.vol.g.BytesPerCluster(), k), found, p, c0)
    requires Sound(dr.vol, dr.l) && IsStore(dr.vol, dr.l, dr.tree.store) && k == |dr.l.chains[head]|
    ensures Scanning(dr, d, head, true, Base(dr.vol.g.BytesPerCluster(), k), found, p, c0)
  {
    hide Loading, Scan, Owned, LongNamesFit;
    BaseOfPrefix(dr.vol, dr.l, head, k);
    assert dr.l.chains[head][..k] == dr.l.chains[head];
    StoreAt(dr.vol, dr.l, dr.tree.store, head);
    HalfwayEnd(dr.tree.store[head], Base(dr.vol.g.BytesPerCluster(), k), found, p);
  }

  method ScanCluster(dr: Driver, d: Ptr, cluster: nat, lfnBuf: array<byte>, pending0: bool,
                     ghost head: nat, ghost k: nat, ghost found0: seq<Found>, ghost c0: Cache)
    returns (pending: bool, done: bool, ghost found: seq<Found>)
    requires lfnBuf.Length == NAME_BUF && lfnBuf != dr.vol.buf
    requires Scanning(dr, d, head, false, Base(dr.vol.g.BytesPerCluster(), k), found0, PendingOf(pending0, lfnBuf[..]), c0)
    requires k < |dr.l.chains[head]| && cluster == dr.l.chains[head][k]
    modifies dr`nodes, dr`nextPtr, dr`at, dr`holder, lfnBuf, dr.vol.buf
    ensures Scanning(dr, d, head, done, Base(dr.vol.g.BytesPerCluster(), k + 1), found, PendingOf(pending, lfnBuf[..]), c0)
  {
    hide Scanning, PendingOf;
    pending, done, found := pending0, false, found0;
    var s: nat := 0;
    while s < dr.vol.g.spc && !done
      invariant s <= dr.vol.g.spc
      invariant Scanning(dr, d, head, done, Base(dr.vol.g.BytesPerCluster(), k) + s * 512, found, PendingOf(pending, lfnBuf[..]), c0)
    {
      pending, done, found := ScanSector(dr, d, cluster, s, lfnBuf, pending, head, k, found, c0);
      s := s + 1;
    }
    if done {
      ScanOver(dr, d, head, Base(dr.vol.g.BytesPerCluster(), k) + s * 512, Base(dr.vol.g.BytesPerCluster(), k + 1), found,
               PendingOf(pending, lfnBuf[..]), c0);
    }
  }

  /** Once the scan is over it no longer matters where it stands. */
  lemma ScanOver(dr: Driver, d: Ptr, head: nat, pos: nat, pos': nat, found: seq<Found>, p: Pending, c0: Cache)
    requires Scanning(dr, d, head, true, pos, found, p, c0)
    ensures Scanning(dr, d, head, true, pos', found, p, c0)
  {}

  lemma LoadingStarts(t: Tree, c: Cache, d: Ptr)
    requires CacheSound(t, c) && d in c.nodes && c.nodes[d].isDir && !c.nodes[d].loaded
    ensures var c' := PutNode(c, d, c.nodes[d].(loaded := true));
      && CacheSound(t, c') && Grew(c.nodes, c'.nodes, d) && PlacesKept(c, c') && PlacesSame(c, c')
      && Listed(c', t.root, d, []) && OthersAgree(t, c, c', d)
  {
    hide CacheSound, OthersAgree;
    Tweaked(t, c, d, c.nodes[d].(loaded := true));
    NotLoadedIsEmpty(t, c, d);
    OthersAgreeMarked(t, c, d, c.nodes[d].(loaded := true));
  }

  lemma NotLoadedIsEmpty(t: Tree, c: Cache, d: Ptr)
    requires CacheSound(t, c) && d in c.nodes && !c.nodes[d].loaded
    ensures c.nodes[d].children == [] && AllListed(c.nodes, d)
  {
    assert ChildrenSound(c.nodes, d);
    forall q | q in c.nodes && q != ROOT
      ensures c.nodes[q].parent != d
    {
      assert NodeSound(t, c, q);
    }
  }

  /** A directory that is not loaded has no wild slots. */
  lemma NotLoadedIsTame(t: Tree, c: Cache, d: Ptr)
    requires TreeSound(t) && CacheSound(t, c) && d in c.nodes && c.nodes[d].isDir && !c.nodes[d].loaded
    ensures NoWildIn(t, HeadOf(t.root, c.nodes[d]))
  {
    forall s | s in t.wild
      ensures s.dir != HeadOf(t.root, c.nodes[d])
    {
      if s.dir == HeadOf(t.root, c.nodes[d]) { WildInDir(t, c, d, s); }
    }
  }

  lemma OthersAgreeMarked(t: Tree, c: Cache, d: Ptr, n: Node)
    requires d in c.nodes && n.children == c.nodes[d].children && n.name == c.nodes[d].name
    requires InStep(c.nodes[d]) ==> InStep(n)
    ensures OthersAgree(t, c, PutNode(c, d, n), d)
  {
    var c' := PutNode(c, d, n);
    forall e | e in c.nodes && e != d && Complete(t, c, e)
      ensures Complete(t, c', e)
    {
      forall s | Seen(t, s) && s.dir == HeadOf(t.root, c'.nodes[e])
        ensures HeldBy(c', e, s)
      {
        assert HeldBy(c, e, s);
      }
    }
  }

  lemma HeadOfDir(dr: Driver, d: Ptr)
    requires dr.Valid() && d in dr.nodes && dr.nodes[d].isDir
    ensures IsStore(dr.vol, dr.l, dr.tree.store)
    ensures var head := HeadOf(dr.tree.root, dr.nodes[d]);
      && head in dr.tree.dirs && head in dr.tree.store && head in dr.l.chains && DirBytes(dr.tree.store[head])
      && ChainPlace(dr.vol.Fat(), dr.l.chains[head], 0, head) && IsLink(head)
  {
    var h := HeadOf(dr.tree.root, dr.nodes[d]);
    NodeFacts(dr.tree, dr.View(), d);
    DirsInStore(dr.tree, h);
    ChainLink(dr.vol.Fat(), dr.l.chains[h], 0);
  }

  lemma SoundParts(dr: Driver)
    requires dr.Valid()
    ensures TreeSound(dr.tree) && CacheSound(dr.tree, dr.View()) && dr.OnDisk() && dr.tree.root == dr.vol.g.rootCluster
    ensures Settled(dr.l.chains, dr.vol.g.BytesPerCluster(), dr.View()) && Handles(dr.nodes, dr.nextPtr)
  {}

  /** `load_dir_children`: on its first use a directory's entries become nodes, the first 128 of them. */
  method Load(dr: Driver, d: Ptr)
    requires dr.Valid() && d in dr.nodes && dr.nodes[d].isDir
    modifies dr`nodes, dr`nextPtr, dr`at, dr`holder, dr.vol.buf
    ensures dr.Valid() && d in dr.nodes && dr.nodes[d].isDir && dr.nodes[d].loaded
    ensures Grew(old(dr.nodes), dr.nodes, d) && OthersAgree(dr.tree, old(dr.View()), dr.View(), d)
    ensures PlacesKept(old(dr.View()), dr.View()) && PlacesSame(old(dr.View()), dr.View())
    ensures old(dr.nodes)[d].loaded ==> dr.View() == old(dr.View())
    ensures var head := HeadOf(dr.tree.root, dr.nodes[d]);
      head in dr.tree.store && LongNamesFit(dr.tree.store[head]) &&
      (!old(dr.nodes)[d].loaded ==> Listed(dr.View(), dr.tree.root, d, Scan(dr.tree.store[head], 0, Idle)))
    ensures AddedShow(dr.tree, old(dr.nodes), dr.View())
    ensures KeepTrack(dr.tree, old(dr.View()), dr.tree, dr.View(), {}) && StaysSmall(dr.tree, old(dr.View()), dr.tree, dr.View())
  {
    hide TreeSound, CacheSound, Settled, Owned, IsStore, Handles, Listed, OthersAgree, PlacesKept, PlacesSame, Scan,
         LongNamesFit, EndsOnce, KeepTrack, Grew,
         SmallDirs,
         Scanning, Driver.Valid, DirBytes;
    ghost var c0, head := dr.View(), HeadOf(dr.tree.root, dr.nodes[d]);
    HeadOfDir(dr, d);
    DirFits(dr.tree.store[head]);
    SoundParts(dr);
    NullIsNone(dr.tree, c0);
    if dr.nodes[d].loaded {
      NothingLoaded(dr.tree, c0, d);
      NothingLost(dr.tree, c0, {});
      return;
    }
    MarkLoaded(dr, d);
    var cluster: nat := if dr.nodes[d].first == 0 then dr.vol.g.rootCluster else dr.nodes[d].first;
    var lfnBuf, pending, done := new byte[NAME_BUF](_ => 0), false, false;
    ghost var k: nat, found: seq<Found> := 0, [];
    StartScan(dr, d, head, c0);
    while IsLink(cluster) && !done
      invariant fresh(lfnBuf) && lfnBuf.Length == NAME_BUF
      invariant Scanning(dr, d, head, done, Base(dr.vol.g.BytesPerCluster(), k), found, PendingOf(pending, lfnBuf[..]), c0)
      invariant !done ==> ChainPlace(dr.vol.Fat(), dr.l.chains[head], k, cluster)
      decreases if done then 0 else |dr.l.chains[head]| - k + 1
    {
      pending, done, found := ScanCluster(dr, d, cluster, lfnBuf, pending, head, k, found, c0);
      ScanSound(dr, d, head, done, Base(dr.vol.g.BytesPerCluster(), k + 1), found, PendingOf(pending, lfnBuf[..]), c0);
      cluster := NextInChain(dr.vol, cluster, dr.l, head, k);
      k := k + 1;
    }
    if !done {
      ScanSound(dr, d, head, done, Base(dr.vol.g.BytesPerCluster(), k), found, PendingOf(pending, lfnBuf[..]), c0);
      ScanningEnds(dr, d, head, k, found, PendingOf(pending, lfnBuf[..]), c0);
    }
    LoadEnds(dr, d, head, Base(dr.vol.g.BytesPerCluster(), k), found, PendingOf(pending, lfnBuf[..]), c0);
  }

  lemma ScanSound(dr: Driver, d: Ptr, head: nat, done: bool, pos: nat, found: seq<Found>, p: Pending, c0: Cache)
    requires Scanning(dr, d, head, done, pos, found, p, c0)
    ensures Sound(dr.vol, dr.l) && IsStore(dr.vol, dr.l, dr.tree.store) && head in dr.l.chains
  {}

  /** Every node that was added shows what its entry says, both copies of its size included. */
  ghost predicate AddedShow(t: Tree, nodes: map<Ptr, Node>, c: Cache) {
    forall q :: q in c.nodes && q !in nodes ==>
      && q in c.at && Seen(t, c.at[q]) && Matches(c.nodes[q], EntryOf(t, c.at[q]))
      && c.nodes[q].size == c.nodes[q].fileSize == SizeOf(EntryOf(t, c.at[q]))
  }

  lemma NodesShow(t: Tree, nodes: map<Ptr, Node>, c: Cache, d: Ptr)
    requires TreeSound(t) && CacheSound(t, c) && Grew(nodes, c.nodes, d) && ROOT in nodes && c.nodes[d].isDir
    requires NoWildIn(t, HeadOf(t.root, c.nodes[d]))
    ensures AddedShow(t, nodes, c)
  {
    forall q | q in c.nodes && q !in nodes
      ensures q in c.at && Seen(t, c.at[q]) && Matches(c.nodes[q], EntryOf(t, c.at[q])) && InStep(c.nodes[q])
    {
      SoundNode(t, c, q);
    }
  }

  /** The scan is over: all that it found is listed. */
  lemma LoadEnds(dr: Driver, d: Ptr, head: nat, pos: nat, found: seq<Found>, p: Pending, c0: Cache)
    requires Scanning(dr, d, head, true, pos, found, p, c0) && d in c0.nodes && !c0.nodes[d].loaded && ROOT in c0.nodes
    ensures dr.Valid() && d in dr.nodes && dr.nodes[d].isDir && dr.nodes[d].loaded
    ensures Grew(c0.nodes, dr.nodes, d) && OthersAgree(dr.tree, c0, dr.View(), d) && PlacesKept(c0, dr.View())
    ensures PlacesSame(c0, dr.View())
    ensures head == HeadOf(dr.tree.root, dr.nodes[d]) && head in dr.tree.store && LongNamesFit(dr.tree.store[head])
    ensures Listed(dr.View(), dr.tree.root, d, Scan(dr.tree.store[head], 0, Idle))
    ensures KeepTrack(dr.tree, c0, dr.tree, dr.View(), {}) && StaysSmall(dr.tree, c0, dr.tree, dr.View())
    ensures AddedShow(dr.tree, c0.nodes, dr.View())
  {
    hide TreeSound, CacheSound, Settled, Owned, IsStore, Handles, Listed, OthersAgree, PlacesKept, PlacesSame, Scan,
         LongNamesFit, KeepTrack, Grew, StaysSmall, NoWildIn, AddedShow;
    NodesShow(dr.tree, c0.nodes, dr.View(), d);
    LoadedTracked(dr.tree, c0, dr.View(), d);
    LoadedSmall(dr.tree, c0, dr.View(), d);
  }

  lemma DirFits(b: seq<byte>)
    requires DirBytes(b)
    ensures LongNamesFit(b)
  {}

  /** A walk along a chain stands at its `k`-th cluster, or past the last one. */
  ghost predicate ChainPlace(fat: seq<nat>, ch: seq<nat>, k: nat, cluster: nat) {
    k <= |ch| && (if k < |ch| then cluster == ch[k] && IsLink(cluster) else !IsLink(cluster))
  }

  method NextInChain(vol: Volume, cluster: nat, ghost l: Ledger, ghost head: nat, ghost k: nat) returns (next: nat)
    requires Sound(vol, l) && head in l.chains && k < |l.chains[head]| && cluster == l.chains[head][k]
    modifies vol.buf
    ensures ChainPlace(vol.Fat(), l.chains[head], k + 1, next)
  {
    ChainLink(vol.Fat(), l.chains[head], k);
    if k + 1 < |l.chains[head]| { ChainLink(vol.Fat(), l.chains[head], k + 1); }
    next := vol.FatGet(cluster);
  }

  lemma NothingLoaded(t: Tree, c: Cache, d: Ptr)
    requires d in c.nodes
    ensures Grew(c.nodes, c.nodes, d) && OthersAgree(t, c, c, d) && PlacesKept(c, c) && PlacesSame(c, c)
  {}

  method MarkLoaded(dr: Driver, d: Ptr)
    requires dr.Valid() && d in dr.nodes && dr.nodes[d].isDir && !dr.nodes[d].loaded
    modifies dr`nodes
    ensures Loading(dr, d, [], old(dr.View()))
    ensures dr.nodes[d] == old(dr.nodes)[d].(loaded := true)
  {
    hide TreeSound, CacheSound, Settled, Owned, IsStore, Handles, Listed, OthersAgree, Grew;
    ghost var v := dr.View();
    NotLoadedIsTame(dr.tree, v, d);
    LoadingStarts(dr.tree, v, d);
    SettledPut(dr.l.chains, dr.vol.g.BytesPerCluster(), v, d, v.nodes[d].(loaded := true));
    HandlesPut(dr.nodes, dr.nextPtr, d, v.nodes[d].(loaded := true));
    dr.nodes := dr.nodes[d := dr.nodes[d].(loaded := true)];
    assert dr.View() == PutNode(v, d, v.nodes[d].(loaded := true));
  }

  lemma LoadingFacts(dr: Driver, d: Ptr, found: seq<Found>, c0: Cache)
    requires Loading(dr, d, found, c0)
    ensures dr.Valid() && d in dr.nodes && dr.nodes[d].isDir
  {}

  lemma StartScan(dr: Driver, d: Ptr, head: nat, c0: Cache)
    requires Loading(dr, d, [], c0) && head == HeadOf(dr.tree.root, dr.nodes[d])
    ensures Scanning(dr, d, head, false, 0, [], Idle, c0)
  {
    hide Loading, TreeSound, CacheSound, Settled, Owned, IsStore, Handles, Listed, OthersAgree, PlacesKept, Grew, Scan,
         EndsOnce, LongNamesFit;
    LoadingFacts(dr, d, [], c0);
    HeadOfDir(dr, d);
    assert [] + Scan(dr.tree.store[head], 0, Idle) == Scan(dr.tree.store[head], 0, Idle);
  }

  // ---- A loaded directory agrees with a fresh scan

  /** Entries beyond the first 128 found have no node. */
  lemma NotListed(t: Tree, c: Cache, d: Ptr, b: seq<byte>, i: nat)
    requires TreeSound(t) && CacheSound(t, c) && d in c.nodes && c.nodes[d].isDir
    requires HeadOf(t.root, c.nodes[d]) in t.store && b == t.store[HeadOf(t.root, c.nodes[d])] && DirBytes(b)
    requires Listed(c, t.root, d, Scan(b, 0, Idle)) && MAX_CHILDREN <= i < |Scan(b, 0, Idle)|
    ensures !Held(c, Slot(HeadOf(t.root, c.nodes[d]), Scan(b, 0, Idle)[i].pos))
  {
    var head, found := HeadOf(t.root, c.nodes[d]), Scan(b, 0, Idle);
    var s := Slot(head, found[i].pos);
    ScanOrder(b, 0, Idle);
    forall p | p in c.nodes && p != ROOT && p in c.at
      ensures c.at[p] != s
    {
      if c.at[p].dir == head {
        EntryInDir(t, c, d, p);
        var k :| 0 <= k < |c.nodes[d].children| && c.nodes[d].children[k] == p;
        assert ListedAs(c, head, p, found[k]);
      }
    }
  }

  /** After loading, every entry has its node exactly for directories of at most 128 entries. */
  lemma LoadedComplete(t: Tree, c: Cache, d: Ptr, b: seq<byte>)
    requires TreeSound(t) && CacheSound(t, c) && d in c.nodes && c.nodes[d].isDir && HeadOf(t.root, c.nodes[d]) in t.dirs
    requires HeadOf(t.root, c.nodes[d]) in t.store && b == t.store[HeadOf(t.root, c.nodes[d])] && DirBytes(b)
    requires Listed(c, t.root, d, Scan(b, 0, Idle))
    ensures Complete(t, c, d) <==> |Scan(b, 0, Idle)| <= MAX_CHILDREN
  {
    var head, found := HeadOf(t.root, c.nodes[d]), Scan(b, 0, Idle);
    if |found| <= MAX_CHILDREN {
      forall s | Seen(t, s) && s.dir == head
        ensures HeldBy(c, d, s)
      {
        var i := ScanFinds(b, 0, Idle, s.pos);
        assert ListedAs(c, head, c.nodes[d].children[i], found[i]) && s == Slot(head, found[i].pos);
      }
    } else {
      var s := Slot(head, found[MAX_CHILDREN].pos);
      NotListed(t, c, d, b, MAX_CHILDREN);
      ScanOrder(b, 0, Idle);
      assert EntryPos(b, s.pos) && Shows(EntryAt(b, s.pos));
      assert Seen(t, s) && !HeldBy(c, d, s);
    }
  }

  /** A directory of which nothing was found is complete. */
  lemma LoadedEmpty(t: Tree, c: Cache, d: Ptr)
    requires TreeSound(t) && CacheSound(t, c) && d in c.nodes && c.nodes[d].isDir && c.nodes[d].children == []
    requires var h := HeadOf(t.root, c.nodes[d]);
      h in t.store && LongNamesFit(t.store[h]) && Listed(c, t.root, d, Scan(t.store[h], 0, Idle))
    ensures Complete(t, c, d)
  {
    NodeFacts(t, c, d);
    DirsInStore(t, HeadOf(t.root, c.nodes[d]));
    LoadedComplete(t, c, d, t.store[HeadOf(t.root, c.nodes[d])]);
  }

  /** Without long names in it, the names agree too. */
  lemma LoadedNames(t: Tree, c: Cache, d: Ptr, b: seq<byte>)
    requires TreeSound(t) && d in c.nodes && c.nodes[d].isDir && HeadOf(t.root, c.nodes[d]) in t.dirs
    requires HeadOf(t.root, c.nodes[d]) in t.store && b == t.store[HeadOf(t.root, c.nodes[d])] && DirBytes(b)
    requires Listed(c, t.root, d, Scan(b, 0, Idle)) && NoLongNames(b)
    ensures NamesAgree(t, c, d)
  {
    var head, found := HeadOf(t.root, c.nodes[d]), Scan(b, 0, Idle);
    ScanShortNames(b, 0);
    forall p | p in c.nodes[d].children
      ensures p in c.nodes && p in c.at && Inside(t, c.at[p]) && c.nodes[p].name == NameOf(EntryOf(t, c.at[p])) && InStep(c.nodes[p])
    {
      var i :| 0 <= i < |c.nodes[d].children| && c.nodes[d].children[i] == p;
      assert ListedAs(c, head, p, found[i]);
      assert EntryPos(b, found[i].pos) && found[i].name == NameOf(EntryAt(b, found[i].pos));
      ShortNameFits(EntryAt(b, found[i].pos));
    }
  }

  /** What a user sees of a directory's member; `fileSize` is what reads and writes go by. */
  datatype Item = Item(name: seq<byte>, isDir: bool, first: nat, size: nat, fileSize: nat)

  ghost function CachedItems(c: Cache, d: Ptr): set<Item>
    requires d in c.nodes
  {
    set p | p in c.nodes[d].children && p in c.nodes :: ItemOf(c.nodes[p])
  }

  function ItemOf(n: Node): Item { Item(n.name, n.isDir, n.first, n.size, n.fileSize) }

  function ItemAt(b: seq<byte>, f: Found): Item {
    if EntryPos(b, f.pos) then
      var e := EntryAt(b, f.pos); Item(NodeName(f.name), IsDir(e), FirstOf(e), SizeOf(e), SizeOf(e))
    else Item(f.name, false, 0, 0, 0)
  }

  ghost function FreshItems(b: seq<byte>): set<Item>
    requires LongNamesFit(b)
  {
    set f | f in Scan(b, 0, Idle) :: ItemAt(b, f)
  }

  lemma ItemCached(t: Tree, c: Cache, d: Ptr, b: seq<byte>, i: nat)
    requires TreeSound(t) && CacheSound(t, c) && d in c.nodes && c.nodes[d].isDir && DirBytes(b) && NoLongNames(b)
    requires HeadOf(t.root, c.nodes[d]) in t.dirs && HeadOf(t.root, c.nodes[d]) in t.store && b == t.store[HeadOf(t.root, c.nodes[d])]
    requires Complete(t, c, d) && NamesAgree(t, c, d) && i < |Scan(b, 0, Idle)|
    requires NoWildIn(t, HeadOf(t.root, c.nodes[d]))
    ensures ItemAt(b, Scan(b, 0, Idle)[i]) in CachedItems(c, d)
  {
    var f := Scan(b, 0, Idle)[i];
    var s := Slot(HeadOf(t.root, c.nodes[d]), f.pos);
    ScanOrder(b, 0, Idle);
    ScanShortNames(b, 0);
    assert EntryPos(b, f.pos) && Shows(EntryAt(b, f.pos)) && f.name == NameOf(EntryAt(b, f.pos));
    assert Seen(t, s) && HeldBy(c, d, s);
    var p := c.holder[s];
    NodeFacts(t, c, p);
    ChildOf(t, c, d, p);
    ShortNameFits(EntryAt(b, f.pos));
    assert ItemOf(c.nodes[p]) == ItemAt(b, f);
  }

  lemma ItemFresh(t: Tree, c: Cache, d: Ptr, b: seq<byte>, p: Ptr)
    requires TreeSound(t) && CacheSound(t, c) && d in c.nodes && c.nodes[d].isDir && DirBytes(b) && NoLongNames(b)
    requires HeadOf(t.root, c.nodes[d]) in t.dirs && HeadOf(t.root, c.nodes[d]) in t.store && b == t.store[HeadOf(t.root, c.nodes[d])]
    requires NamesAgree(t, c, d) && p in c.nodes[d].children
    requires NoWildIn(t, HeadOf(t.root, c.nodes[d]))
    ensures p in c.nodes && ItemOf(c.nodes[p]) in FreshItems(b)
  {
    ChildOf(t, c, d, p);
    NodeFacts(t, c, p);
    var s := c.at[p];
    var i := ScanFinds(b, 0, Idle, s.pos);
    ScanShortNames(b, 0);
    ShortNameFits(EntryAt(b, s.pos));
    assert ItemAt(b, Scan(b, 0, Idle)[i]) == ItemOf(c.nodes[p]);
  }

  /** The cache agrees with the disk: scanning the directory afresh yields the members it holds. */
  lemma FreshScanAgrees(t: Tree, c: Cache, d: Ptr, b: seq<byte>)
    requires TreeSound(t) && CacheSound(t, c) && d in c.nodes && c.nodes[d].isDir && DirBytes(b) && NoLongNames(b)
    requires HeadOf(t.root, c.nodes[d]) in t.dirs && HeadOf(t.root, c.nodes[d]) in t.store && b == t.store[HeadOf(t.root, c.nodes[d])]
    requires Complete(t, c, d) && NamesAgree(t, c, d)
    requires NoWildIn(t, HeadOf(t.root, c.nodes[d]))
    ensures FreshItems(b) == CachedItems(c, d)
  {
    forall item | item in FreshItems(b)
      ensures item in CachedItems(c, d)
    {
      var f :| f in Scan(b, 0, Idle) && ItemAt(b, f) == item;
      var i :| 0 <= i < |Scan(b, 0, Idle)| && Scan(b, 0, Idle)[i] == f;
      ItemCached(t, c, d, b, i);
    }
    forall item | item in CachedItems(c, d)
      ensures item in FreshItems(b)
    {
      var p :| p in c.nodes[d].children && p in c.nodes && ItemOf(c.nodes[p]) == item;
      ItemFresh(t, c, d, b, p);
    }
  }

  /** Loading a directory makes its children agree with the disk, if it was small and held no long names. */
  lemma LoadedTracked(t: Tree, c0: Cache, c: Cache, d: Ptr)
    requires TreeSound(t) && CacheSound(t, c) && Grew(c0.nodes, c.nodes, d) && OthersAgree(t, c0, c, d)
    requires c.nodes[d].isDir && c.nodes[d].loaded && !c0.nodes[d].loaded
    requires var h := HeadOf(t.root, c.nodes[d]);
      h in t.store && LongNamesFit(t.store[h]) && Listed(c, t.root, d, Scan(t.store[h], 0, Idle))
    ensures KeepTrack(t, c0, t, c, {})
  {
    forall x | Tracked(t, c0, x)
      ensures Tracked(t, c, x)
    {
      if x == d {
        LoadedComplete(t, c, d, t.store[HeadOf(t.root, c.nodes[d])]);
        LoadedNames(t, c, d, t.store[HeadOf(t.root, c.nodes[d])]);
      }
    }
  }

  /** Loading a directory that fits leaves every loaded directory complete. */
  lemma LoadedSmall(t: Tree, c0: Cache, c: Cache, d: Ptr)
    requires TreeSound(t) && CacheSound(t, c) && Grew(c0.nodes, c.nodes, d) && OthersAgree(t, c0, c, d)
    requires c.nodes[d].isDir && c.nodes[d].loaded && !c0.nodes[d].loaded
    requires var h := HeadOf(t.root, c.nodes[d]);
      h in t.store && LongNamesFit(t.store[h]) && Listed(c, t.root, d, Scan(t.store[h], 0, Idle))
    ensures StaysSmall(t, c0, t, c)
  {
    hide Complete, CacheSound, EntriesSound, WildSound, Listed, Scan;
    var h := HeadOf(t.root, c.nodes[d]);
    NodeFacts(t, c, d);
    DirsInStore(t, h);
    if SmallDirs(t, c0) {
      forall e | e in c0.nodes && c0.nodes[e].isDir && c0.nodes[e].loaded
        ensures HeadOf(t.root, c0.nodes[e]) != h
      {
        if HeadOf(t.root, c.nodes[e]) == h { HeadUnique(t, c, e, d); }
      }
      assert FitsCache(t, h);
      LoadedComplete(t, c, d, t.store[h]);
      forall h' | h' in t.dirs && NotLoaded(c, t.root, h')
        ensures FitsCache(t, h')
      {
        assert NotLoaded(c0, t.root, h');
      }
    }
  }

  /** A tracked, loaded directory: scanning it afresh yields the members it holds. */
  lemma TrackedAgrees(t: Tree, c: Cache, d: Ptr)
    requires TreeSound(t) && CacheSound(t, c) && Tracked(t, c, d) && c.nodes[d].loaded
    ensures var h := HeadOf(t.root, c.nodes[d]);
      h in t.store && LongNamesFit(t.store[h]) && FreshItems(t.store[h]) == CachedItems(c, d)
  {
    FreshScanAgrees(t, c, d, t.store[HeadOf(t.root, c.nodes[d])]);
  }

  // ---- Looking a name up

  /** `fat32_lookup`: the first child with that name, or NULL. */
  method Lookup(dr: Driver, d: Ptr, name: seq<byte>) returns (p: Ptr)
    requires dr.Valid() && d in dr.nodes
    modifies dr`nodes, dr`nextPtr, dr`at, dr`holder, dr.vol.buf
    ensures dr.Valid() && d in dr.nodes && dr.nodes[d].isDir == old(dr.nodes)[d].isDir
    ensures !dr.nodes[d].isDir ==> p == NULL && dr.View() == old(dr.View())
    ensures Grew(old(dr.nodes), dr.nodes, d) && PlacesKept(old(dr.View()), dr.View())
    ensures dr.nodes[d].isDir ==>
      && dr.nodes[d].loaded
      && OthersAgree(dr.tree, old(dr.View()), dr.View(), d)
      && (old(dr.nodes)[d].loaded ==> dr.View() == old(dr.View()))
      && (var head := HeadOf(dr.tree.root, dr.nodes[d]);
          head in dr.tree.store && LongNamesFit(dr.tree.store[head]) &&
          (!old(dr.nodes)[d].loaded ==> Listed(dr.View(), dr.tree.root, d, Scan(dr.tree.store[head], 0, Idle))))
      && FirstNamed(dr.nodes, dr.nodes[d].children, name, p)
    ensures AddedShow(dr.tree, old(dr.nodes), dr.View())
    ensures KeepTrack(dr.tree, old(dr.View()), dr.tree, dr.View(), {}) && StaysSmall(dr.tree, old(dr.View()), dr.tree, dr.View())
  {
    hide KeepTrack, SmallDirs, TreeSound, Settled, Owned, IsStore, Handles, Listed, OthersAgree, PlacesKept, PlacesSame,
         Scan, LongNamesFit, NodeSound, Grew, CacheSound;
    if !dr.nodes[d].isDir {
      NothingLost(dr.tree, dr.View(), {});
      NothingLoaded(dr.tree, dr.View(), d);
      return NULL;
    }
    Load(dr, d);
    ChildrenThere(dr.tree, dr.View(), d);
    var children := dr.nodes[d].children;
    for i := 0 to |children|
      invariant forall j :: 0 <= j < i ==> dr.nodes[children[j]].name != name
    {
      if dr.nodes[children[i]].name == name {
        return children[i];
      }
    }
    p := NULL;
  }

  lemma ChildrenThere(t: Tree, c: Cache, d: Ptr)
    requires CacheSound(t, c) && d in c.nodes
    ensures NULL !in c.nodes && forall i :: 0 <= i < |c.nodes[d].children| ==> c.nodes[d].children[i] in c.nodes
  {
    assert ChildrenSound(c.nodes, d);
  }

  ghost predicate FirstNamed(nodes: map<Ptr, Node>, children: seq<Ptr>, name: seq<byte>, p: Ptr) {
    if p == NULL then forall j :: 0 <= j < |children| && children[j] in nodes ==> nodes[children[j]].name != name
    else exists i :: 0 <= i < |children| && children[i] == p && p in nodes && nodes[p].name == name
           && forall j :: 0 <= j < i && children[j] in nodes ==> nodes[children[j]].name != name
  }
}
