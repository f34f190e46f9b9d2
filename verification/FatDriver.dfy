/** The FAT32 driver behind the file interface: nodes, and what the operations on them do. */
module FatDriver {
  import opened Bytes
  import opened FileSpec
  import opened FatVolume
  import opened FatTable
  import opened FatChains
  import opened FatFile
  import opened FatEntries
  import opened FatTree
  import opened FatNodes
  import opened FatScan
  import opened FatStore
  import opened FatRoom
  import opened FatFileOps

  /** Every node's entry, if it has one, lies where the node says. */
  ghost predicate Settled(chains: map<nat, seq<nat>>, bpc: nat, c: Cache)
    requires bpc > 0
  {
    forall p {:trigger LiesThere(chains, bpc, c, p)} :: p in c.nodes && p != ROOT && p in c.at ==> LiesThere(chains, bpc, c, p)
  }

  ghost predicate LiesThere(chains: map<nat, seq<nat>>, bpc: nat, c: Cache, p: Ptr)
    requires bpc > 0 && p in c.nodes && p in c.at
  {
    Lies(chains, bpc, c.at[p], c.nodes[p].dirCluster, Rem(c.nodes[p].direntOff, bpc))
  }

  /** Chains that hold entries keep their clusters. */
  ghost predicate DirsKept(chains: map<nat, seq<nat>>, chains': map<nat, seq<nat>>, dirs: set<nat>) {
    forall d :: d in dirs && d in chains ==> d in chains' && chains[d] <= chains'[d]
  }

  lemma SettledFrame(chains: map<nat, seq<nat>>, chains': map<nat, seq<nat>>, bpc: nat, t: Tree, c: Cache)
    requires bpc > 0 && Settled(chains, bpc, c) && CacheSound(t, c) && DirsKept(chains, chains', t.dirs)
    ensures Settled(chains', bpc, c)
  {
    forall p | p in c.nodes && p != ROOT && p in c.at
      ensures LiesThere(chains', bpc, c, p)
    {
      assert NodeSound(t, c, p) && LiesThere(chains, bpc, c, p);
      LiesLonger(chains, chains', bpc, c.at[p], c.nodes[p].dirCluster, Rem(c.nodes[p].direntOff, bpc));
    }
  }

  lemma SettledPut(chains: map<nat, seq<nat>>, bpc: nat, c: Cache, p: Ptr, n: Node)
    requires bpc > 0 && Settled(chains, bpc, c) && p in c.nodes
    requires n.dirCluster == c.nodes[p].dirCluster && n.direntOff == c.nodes[p].direntOff
    ensures Settled(chains, bpc, PutNode(c, p, n))
  {
    forall q | q in c.nodes && q != ROOT && q in c.at
      ensures LiesThere(chains, bpc, PutNode(c, p, n), q)
    {
      assert LiesThere(chains, bpc, c, q);
    }
  }

  /** Handles in use are below the next one. */
  ghost predicate Handles(nodes: map<Ptr, Node>, nextPtr: Ptr) {
    forall p :: p in nodes ==> p < nextPtr
  }

  lemma HandlesPut(nodes: map<Ptr, Node>, nextPtr: Ptr, p: Ptr, n: Node)
    requires Handles(nodes, nextPtr) && p in nodes
    ensures Handles(nodes[p := n], nextPtr)
  {}

  /** A step on chain `f`, which is no directory, leaves the directories' chains alone. */
  lemma ChainsKept(f: nat, data: seq<seq<byte>>, l: Ledger, data': seq<seq<byte>>, l': Ledger, dirs: set<nat>)
    requires OnlyChain(f, data, l, data', l') && f !in dirs
    ensures DirsKept(l.chains, l'.chains, dirs)
  {}

  lemma LedgerStepTrans(l: Ledger, l1: Ledger, l2: Ledger, f: nat)
    requires LedgerStep(l, l1, f) && LedgerStep(l1, l2, f)
    ensures LedgerStep(l, l2, f)
  {}

  lemma LedgerSteps(l: Ledger, f: nat)
    ensures LedgerStep(l, l, f) && (f !in l.chains ==> LedgerStep(l, NewChain(l, f), f))
  {}

  lemma WrittenInLedger(f: nat, data: seq<seq<byte>>, l: Ledger, data': seq<seq<byte>>, l': Ledger)
    requires OnlyChain(f, data, l, data', l') && f in l.chains && f in l'.chains && l.chains[f] <= l'.chains[f]
    ensures LedgerStep(l, l', f)
  {}

  lemma WrittenLength(b: seq<byte>, b': seq<byte>, offset: nat, bs: seq<byte>)
    requires Written(b, b', offset, bs)
    ensures |b'| >= |b| && |b'| >= offset + |bs|
  {}

  lemma SameLength(t: Tree, n: Node, end: nat, bpc: nat)
    ensures NoWaste(ChainLength(t, n), ChainLength(t, n), end, bpc)
  {}

  lemma NoChain(t: Tree, n: Node)
    requires n.first !in t.store
    ensures ChainLength(t, n) == 0
  {}

  lemma ChainThere(t: Tree, n: Node)
    requires n.first in t.store
    ensures ChainLength(t, n) == |t.store[n.first]|
  {}

  lemma LengthAfter(t: Tree, n: Node, len: nat, t': Tree, n': Node, end: nat, bpc: nat)
    requires NoWaste(ChainLength(t, n), len, 1, bpc) && n'.first in t'.store && NoWaste(len, |t'.store[n'.first]|, end, bpc) && end > 0
    ensures NoWaste(ChainLength(t, n), ChainLength(t', n'), end, bpc)
  {}

  /** The node that `fat32_mount` makes. */
  function RootNode(): Node { Node([47], true, 0, 0, 0, 0, 0, ROOT, [], false) }

  lemma FreshCache(t: Tree, chains: map<nat, seq<nat>>, bpc: nat)
    requires bpc > 0 && t.wild == map[]
    ensures var c := Cache(map[ROOT := RootNode()], map[], map[]);
      CacheSound(t, c) && Settled(chains, bpc, c) && Handles(c.nodes, ROOT + 1)
  {}

  lemma NoZeroChain(fat: seq<nat>, l: Ledger)
    requires Owned(fat, l)
    ensures 0 !in l.chains
  {
    assert 0 in l.chains ==> IsChain(fat, l.chains[0]);
  }

  /** What `fat32_write` answers for a file when the chain can reach `len`. */
  function WriteCount(len: nat, offset: nat, count: nat): int {
    if count == 0 then 0 else
    var n := Fitting(len, offset, count);
    if n > 0 then n else ERR_NOSPACE
  }

  lemma SliceOfPrefix(b: seq<byte>, size: nat, offset: nat, count: nat)
    requires offset < size <= |b|
    ensures Slice(b[..size], offset, count) == b[offset..offset + Min(count, size - offset)]
  {}

  class Driver {
    const vol: Volume
    var nodes: map<Ptr, Node>
    var nextPtr: Ptr
    ghost var l: Ledger
    ghost var tree: Tree
    ghost var at: map<Ptr, Slot>
    ghost var holder: map<Slot, Ptr>

    ghost function View(): Cache
      reads this
    {
      Cache(nodes, at, holder)
    }

    /** The volume holds the tree, and the allocation invariant holds. */
    ghost predicate OnDisk()
      reads this, vol
    {
      Sound(vol, l) && IsStore(vol, l, tree.store) && tree.root == vol.g.rootCluster
    }

    ghost predicate Valid()
      reads this, vol
    {
      && OnDisk() && TreeSound(tree) && CacheSound(tree, View())
      && Settled(l.chains, vol.g.BytesPerCluster(), View())
      && Handles(nodes, nextPtr)
    }

    /** The end of `fat32_mount`, on a volume whose directory tree and chains are well formed. */
    constructor (vol: Volume, ghost l: Ledger, ghost tree: Tree)
      requires Sound(vol, l) && IsStore(vol, l, tree.store) && tree.root == vol.g.rootCluster && TreeSound(tree) && tree.wild == map[]
      ensures Valid() && this.vol == vol && nodes == map[ROOT := RootNode()] && this.tree == tree && this.l == l
    {
      hide TreeSound, CacheSound, Settled, Owned, IsStore, Handles;
      this.vol, this.l, this.tree := vol, l, tree;
      nodes := map[ROOT := RootNode()];
      at, holder, nextPtr := map[], map[], ROOT + 1;
      FreshCache(tree, l.chains, vol.g.BytesPerCluster());
    }

    /** Every chain but the root's is referred to by an entry that a scan finds. */
    ghost predicate LeakFree()
      reads this
    {
      AllReferred(tree, 0)
    }

    /** How many bytes the chain of node `p` could hold: its own clusters and the free ones. */
    ghost function Room(p: Ptr): nat
      requires p in nodes
      reads this, vol
    {
      Base(vol.g.BytesPerCluster(), RoomIn(l, vol.g.Limit(), nodes[p].first))
    }

    ghost function Content(p: Ptr): seq<byte>
      reads this
    {
      if p in nodes then ContentOf(tree, nodes[p]) else []
    }

    /** A file's chain, whether or not its directory is still there. */
    lemma FileHead(p: Ptr)
      requires Valid() && p in nodes && !nodes[p].isDir
      ensures p != ROOT
      ensures nodes[p].first == 0 || (nodes[p].first in tree.store && nodes[p].first !in tree.dirs)
      ensures nodes[p].first == 0 ==> nodes[p].fileSize == 0
      ensures nodes[p].first != 0 ==>
        && nodes[p].first in l.chains
        && tree.store[nodes[p].first] == FileBytes(vol.Data(), l, nodes[p].first)
        && nodes[p].fileSize <= |tree.store[nodes[p].first]|
      ensures nodes[p].fileSize < TWO32 && 0 !in tree.store && tree.store.Keys == l.chains.Keys
    {
      NodeFacts(tree, View(), p);
    }

    /** A file's entry, while its directory is there. */
    lemma FilePlace(p: Ptr)
      requires Valid() && p in nodes && !nodes[p].isDir && nodes[p].parent in nodes
      ensures p in at && Inside(tree, at[p])
      ensures Lies(l.chains, vol.g.BytesPerCluster(), at[p], nodes[p].dirCluster, Rem(nodes[p].direntOff, vol.g.BytesPerCluster()))
      ensures at[p] !in tree.wild ==> Seen(tree, at[p]) && Matches(nodes[p], EntryOf(tree, at[p]))
    {
      NodeFacts(tree, View(), p);
      assert LiesThere(l.chains, vol.g.BytesPerCluster(), View(), p);
    }

    method Read(p: Ptr, offset: nat, count: nat) returns (n: int, out: seq<byte>)
      requires Valid() && p in nodes
      modifies vol.buf
      ensures nodes[p].isDir ==> n == ERR_ISDIR && out == []
      ensures !nodes[p].isDir ==> n == |out| && out == Slice(Content(p), offset, count)
    {
      hide TreeSound, CacheSound, Settled, Owned, IsStore, Handles, Seen, Matches, Lies, EntryOf;
      var node := nodes[p];
      if node.isDir { return ERR_ISDIR, []; }
      FileHead(p);
      if offset >= node.fileSize { return 0, []; }
      var toRead := Min(count, node.fileSize - offset);
      SliceOfPrefix(tree.store[node.first], node.fileSize, offset, count);
      out := ReadChain(vol, node.first, offset, toRead, l);
      n := |out|;
    }

    /** A zeroed cluster of its own, not yet referred to; 0 when none is free. */
    method AllocChain() returns (c: nat)
      requires OnDisk()
      modifies `l, `tree, vol`disk, vol.buf
      ensures OnDisk() && vol.Untouched() == old(vol.Untouched())
      ensures c == 0 ==> vol.disk == old(vol.disk) && tree == old(tree) && l == old(l) && NoneFree(vol)
      ensures c != 0 ==>
        && vol.g.Cluster(c) && c !in old(l).chains && c !in old(l).owner && c !in old(tree).store && l == NewChain(old(l), c)
        && tree == PutChain(old(tree), c, Zeros(vol.g.BytesPerCluster()))
    {
      ghost var fat, data := vol.Fat(), vol.Data();
      c := vol.FatAlloc();
      if c == 0 { return; }
      FreeIsUnowned(fat, l, c);
      StoreNew(fat, data, l, c, Zeros(vol.g.BytesPerCluster()));
      NewChainOwned(fat, l, c);
      l := NewChain(l, c);
      tree := PutChain(tree, c, Zeros(vol.g.BytesPerCluster()));
    }

    /** Writes a node's first cluster into its entry. */
    method RecordFirst(p: Ptr, first: nat)
      requires OnDisk() && p in nodes && p in at && Inside(tree, at[p]) && first < TWO32
      requires Lies(l.chains, vol.g.BytesPerCluster(), at[p], nodes[p].dirCluster, Rem(nodes[p].direntOff, vol.g.BytesPerCluster()))
      modifies `nodes, `tree, vol`disk, vol.buf
      ensures OnDisk() && vol.Untouched() == old(vol.Untouched())
      ensures tree == FilePut(old(tree), old(View()), p, WithFirst(EntryOf(old(tree), at[p]), first), first)
      ensures nodes == old(nodes)[p := old(nodes)[p].(first := first)]
      ensures View() == PutNode(old(View()), p, old(nodes)[p].(first := first))
    {
      hide Owned, IsStore, PutBytes, WithFirst, Lies;
      var node := nodes[p];
      nodes := nodes[p := node.(first := first)];
      EditFirst(vol, node.dirCluster, Rem(node.direntOff, vol.g.BytesPerCluster()), first, l, at[p], tree);
      tree := FilePut(tree, View(), p, WithFirst(EntryOf(tree, at[p]), first), first);
    }

    /** The node's first cluster, allocated and recorded in its entry if there is none; 0 when none is free. */
    method StartChain(p: Ptr) returns (first: nat)
      requires Valid() && p in nodes && !nodes[p].isDir && nodes[p].parent in nodes
      modifies `nodes, `l, `tree, vol`disk, vol.buf
      ensures Valid() && vol.Untouched() == old(vol.Untouched())
      ensures first == 0 ==>
        old(nodes)[p].first == 0 && vol.disk == old(vol.disk) && nodes == old(nodes) && tree == old(tree) && l == old(l) && NoneFree(vol)
      ensures first != 0 ==>
        && nodes == old(nodes)[p := old(nodes)[p].(first := first)]
        && FileOp(old(tree), old(View()), tree, View(), p, first)
        && first in tree.store && (first == old(nodes)[p].first || (old(nodes)[p].first == 0 && first !in old(tree.store)))
        && ChainBefore(old(tree), old(nodes)[p], first, tree.store[first])
        && NoWaste(ChainLength(old(tree), old(nodes)[p]), |tree.store[first]|, 1, vol.g.BytesPerCluster())
      ensures LedgerStep(old(l), l, first) && p in old(at) && Inside(old(tree), old(at)[p])
      ensures old(LeakFree()) ==> (LeakFree() <==> first == 0 || first == old(nodes)[p].first || ShownEmpty(old(tree), at[p]))
    {
      hide TreeSound, CacheSound, Settled, Owned, IsStore, Handles, FileOp, LedgerStep, AllReferred;
      first := nodes[p].first;
      LedgerSteps(l, first);
      FileHead(p);
      FilePlace(p);
      NoFileOp(tree, View(), p, first);
      if first != 0 {
        assert nodes == nodes[p := nodes[p].(first := first)];
        return;
      }
      first := NewFileChain(p);
    }

    method NewFileChain(p: Ptr) returns (c: nat)
      requires Valid() && p in nodes && !nodes[p].isDir && nodes[p].parent in nodes && nodes[p].first == 0
      modifies `nodes, `l, `tree, vol`disk, vol.buf
      ensures Valid() && vol.Untouched() == old(vol.Untouched())
      ensures c == 0 ==> vol.disk == old(vol.disk) && nodes == old(nodes) && tree == old(tree) && l == old(l) && NoneFree(vol)
      ensures c != 0 ==>
        && nodes == old(nodes)[p := old(nodes)[p].(first := c)]
        && FileOp(old(tree), old(View()), tree, View(), p, c)
        && c in tree.store && c !in old(tree.store) && tree.store[c] == Zeros(vol.g.BytesPerCluster())
      ensures LedgerStep(old(l), l, c) && p in old(at) && Inside(old(tree), old(at)[p])
      ensures old(LeakFree()) ==> (LeakFree() <==> c == 0 || ShownEmpty(old(tree), at[p]))
    {
      hide TreeSound, CacheSound, Settled, FilePut, FileOp, WithFirst, Owned, Handles, IsStore, LedgerStep, AllReferred,
           EntryOf, Seen, ShownEmpty;
      ghost var t, l0, v := tree, l, View();
      FileHead(p);
      FilePlace(p);
      c := AllocChain();
      LedgerSteps(l0, c);
      if c == 0 { return; }
      ghost var t1 := tree;
      ChainAdded(t, v, p, c, Zeros(vol.g.BytesPerCluster()));
      SettledFrame(l0.chains, l.chains, vol.g.BytesPerCluster(), t, v);
      FirstRecorded(t, v, t1, p, c);
      SettledPut(l.chains, vol.g.BytesPerCluster(), v, p, v.nodes[p].(first := c));
      HandlesPut(v.nodes, nextPtr, p, v.nodes[p].(first := c));
      RecordFirst(p, c);
    }

    /** The copying part of `fat32_write`. */
    method WriteData(p: Ptr, offset: nat, src: seq<byte>) returns (written: nat)
      requires Valid() && p in nodes && !nodes[p].isDir && nodes[p].parent in nodes && nodes[p].first != 0 && src != []
      modifies `l, `tree, vol`disk, vol.buf
      ensures Valid() && vol.Untouched() == old(vol.Untouched())
      ensures FileOp(old(tree), View(), tree, View(), p, nodes[p].first)
      ensures nodes[p].first in old(tree).store && nodes[p].first in tree.store
      ensures written <= |src| && (written < |src| ==> NoneFree(vol))
      ensures written == Fitting(|tree.store[nodes[p].first]|, offset, |src|)
      ensures Written(old(tree).store[nodes[p].first], tree.store[nodes[p].first],
                      if written > 0 then offset else 0, src[..written])
      ensures NoWaste(|old(tree).store[nodes[p].first]|, |tree.store[nodes[p].first]|, offset + |src|, vol.g.BytesPerCluster())
      ensures LedgerStep(old(l), l, nodes[p].first) && (LeakFree() <==> old(LeakFree()))
    {
      hide TreeSound, CacheSound, Settled, FileOp, Handles, Written, OnlyChain, DirsKept, Owned, NoneFree, FileBytes,
           LedgerStep, AllReferred,
           StoreOf, FatOf, TopOf, RestOf, DataOf, Seen, Matches, Lies, EntryOf, NoWaste;
      var f := nodes[p].first;
      ghost var t, l0, data := tree, l, vol.Data();
      FileHead(p);
      FilePlace(p);
      written, l := WriteChain(vol, f, offset, src, l);
      ghost var b := FileBytes(vol.Data(), l, f);
      StoreStep(old(vol.Fat()), f, data, l0, vol.Data(), l);
      tree := PutChain(tree, f, b);
      assert src[..0] == [];
      WrittenLength(t.store[f], b, if written > 0 then offset else 0, src[..written]);
      BytesWritten(t, View(), p, f, b);
      ChainsKept(f, data, l0, vol.Data(), l, t.dirs);
      WrittenInLedger(f, data, l0, vol.Data(), l);
      SettledFrame(l0.chains, l.chains, vol.g.BytesPerCluster(), t, View());
    }

    /** The end of `fat32_write`: a larger size is recorded in the node and in its entry, in 32 bits. */
    method GrowSize(p: Ptr, newEnd: nat)
      requires Valid() && p in nodes && !nodes[p].isDir && nodes[p].parent in nodes && nodes[p].first in tree.store
      requires newEnd <= |tree.store[nodes[p].first]|
      modifies `nodes, `tree, vol`disk, vol.buf
      ensures Valid() && vol.Untouched() == old(vol.Untouched())
      ensures FileOp(old(tree), old(View()), tree, View(), p, old(nodes)[p].first)
      ensures nodes[p] == if newEnd > old(nodes)[p].fileSize then old(nodes)[p].(size := U32(newEnd), fileSize := U32(newEnd))
                          else old(nodes)[p]
      ensures nodes[p].first == old(nodes)[p].first && nodes[p].first in tree.store
      ensures tree.store[nodes[p].first] == old(tree).store[nodes[p].first]
      ensures (old(NoneFree(vol)) ==> NoneFree(vol)) && (LeakFree() <==> old(LeakFree()))
    {
      hide TreeSound, CacheSound, Settled, Owned, IsStore, Handles, FileOp, Lies, WithSize, FilePut, PutBytes, AllReferred;
      var node := nodes[p];
      FileHead(p);
      FilePlace(p);
      NoFileOp(tree, View(), p, node.first);
      if newEnd > node.fileSize {
        var size := U32(newEnd);
        ghost var v := View();
        SizeRecorded(tree, v, p, size);
        HandlesPut(nodes, nextPtr, p, node.(size := size, fileSize := size));
        SettledPut(l.chains, vol.g.BytesPerCluster(), v, p, node.(size := size, fileSize := size));
        nodes := nodes[p := node.(size := size, fileSize := size)];
        EditSize(vol, node.dirCluster, Rem(node.direntOff, vol.g.BytesPerCluster()), size, l, at[p], tree);
        tree := FilePut(tree, v, p, WithSize(EntryOf(tree, at[p]), size), 0);
        assert View() == PutNode(v, p, node.(size := size, fileSize := size));
      }
    }

    /**
     * Writes to a file. The content becomes the old content, zero-filled up to `offset` and overwritten by
     * the bytes written, exactly when the new end fits in 32 bits and the chain holds zero bytes in the gap;
     * it always does in files whose tail this driver wrote. The number of bytes written is how many lie below the end
     * of what the file's own and the free clusters can hold; if there are none the write is refused. If bytes are left
     * out no cluster is free any more.
     * A chain is lost exactly if the file gets its first cluster and no scan finds its entry, or another node that
     * shares the entry has its chain there.
     */
    method Write(p: Ptr, offset: nat, src: seq<byte>) returns (n: int)
      requires Valid() && p in nodes && offset + |src| < TWO64
      requires !nodes[p].isDir && src != [] ==> nodes[p].parent in nodes
      modifies `nodes, `l, `tree, vol`disk, vol.buf
      ensures Valid() && vol.Untouched() == old(vol.Untouched()) && nodes.Keys == old(nodes).Keys
      ensures nodes[p].isDir == old(nodes)[p].isDir && nodes[p].parent == old(nodes)[p].parent
      ensures old(nodes)[p].isDir || src == [] ==>
        && n == (if old(nodes)[p].isDir then ERR_ISDIR else 0)
        && nodes == old(nodes) && tree == old(tree) && vol.disk == old(vol.disk)
      ensures !old(nodes)[p].isDir && src != [] ==>
        && FileOp(old(tree), old(View()), tree, View(), p, nodes[p].first)
        && Outcome(old(tree), old(nodes)[p], tree, nodes[p], offset, src, n)
        && SizeStep(old(nodes)[p], nodes[p], offset, n)
        && n == (if old(Room(p)) <= offset then ERR_NOSPACE else Min(|src|, old(Room(p)) - offset))
        && (n != |src| ==> NoneFree(vol))
        && NoWaste(ChainLength(old(tree), old(nodes)[p]), ChainLength(tree, nodes[p]), offset + |src|, vol.g.BytesPerCluster())
      ensures OthersKept(old(tree), old(nodes), tree, nodes, p)
      ensures LedgerStep(old(l), l, nodes[p].first) && Room(p) == old(Room(p))
      ensures old(LeakFree()) ==> (LeakFree() <==> (nodes[p].first != old(nodes)[p].first ==> p in at && ShownEmpty(old(tree), at[p])))
      ensures old(LeakFree()) && p in at && at[p] !in tree.wild ==> LeakFree()
      ensures KeepTrack(old(tree), old(View()), tree, View(), {}) && StaysSmall(old(tree), old(View()), tree, View())
      ensures tree.wild == old(tree).wild
    {
      hide TreeSound, CacheSound, Settled, Owned, IsStore, Handles, NoneFree, Outcome, OthersKept, LedgerStep, AllReferred,
           KeepTrack, SmallDirs, ShownEmpty,
           Matches, Seen;
      NothingChanged(tree, nodes, p);
      LedgerSteps(l, nodes[p].first);
      NothingLost(tree, View(), {});
      if nodes[p].isDir { return ERR_ISDIR; }
      if src == [] { return 0; }
      FileHead(p);
      FilePlace(p);
      EmptyIsShown(p);
      ghost var l0, fat0 := l, vol.Fat();
      n := WriteFile(p, offset, src);
      FileHead(p);
      RoomStays(fat0, l0, old(nodes)[p].first, p);
      RoomDecides(vol, l, nodes[p].first, ChainLength(tree, nodes[p]), offset, |src|);
      AllOtherContents(old(tree), old(View()), tree, View(), p, nodes[p].first);
    }

    /** The room for a file is the same after a step on its chain, which may be its first. */
    lemma RoomStays(fat0: seq<nat>, l0: Ledger, f0: nat, p: Ptr)
      requires Valid() && p in nodes && !nodes[p].isDir && Owned(fat0, l0) && |fat0| == vol.g.Limit() && LedgerStep(l0, l, nodes[p].first)
      requires f0 == nodes[p].first || (f0 == 0 && nodes[p].first !in l0.chains)
      ensures RoomIn(l, vol.g.Limit(), nodes[p].first) == RoomIn(l0, vol.g.Limit(), f0)
      ensures ChainLength(tree, nodes[p]) == Base(vol.g.BytesPerCluster(), ChainSize(l, nodes[p].first))
    {
      FileHead(p);
      RoomKept(fat0, l0, vol.Fat(), l, nodes[p].first);
      NoZeroChain(fat0, l0);
      if nodes[p].first in l.chains { WholeChain(vol, l, nodes[p].first); }
    }

    /** The entry of an empty file is shown and has no chain, unless it is in a wild slot. */
    lemma EmptyIsShown(p: Ptr)
      requires Valid() && p in nodes && !nodes[p].isDir && nodes[p].parent in nodes
      ensures p in at && (at[p] !in tree.wild && nodes[p].first == 0 ==> ShownEmpty(tree, at[p]))
    {
      FilePlace(p);
    }

    method WriteFile(p: Ptr, offset: nat, src: seq<byte>) returns (n: int)
      requires Valid() && p in nodes && !nodes[p].isDir && nodes[p].parent in nodes && src != []
      modifies `nodes, `l, `tree, vol`disk, vol.buf
      ensures Valid() && vol.Untouched() == old(vol.Untouched()) && nodes.Keys == old(nodes).Keys
      ensures FileOp(old(tree), old(View()), tree, View(), p, nodes[p].first)
      ensures !nodes[p].isDir
      ensures (nodes[p].first == old(nodes)[p].first || (old(nodes)[p].first == 0 && nodes[p].first !in old(tree).store))
      ensures n == WriteCount(ChainLength(tree, nodes[p]), offset, |src|) && (n != |src| ==> NoneFree(vol))
      ensures NoWaste(ChainLength(old(tree), old(nodes)[p]), ChainLength(tree, nodes[p]), offset + |src|, vol.g.BytesPerCluster())
      ensures LedgerStep(old(l), l, nodes[p].first)
      ensures old(LeakFree()) ==> (LeakFree() <==> (nodes[p].first != old(nodes)[p].first ==> p in at && ShownEmpty(old(tree), at[p])))
      ensures Outcome(old(tree), old(nodes)[p], tree, nodes[p], offset, src, n)
      ensures SizeStep(old(nodes)[p], nodes[p], offset, n)
    {
      hide Valid, TreeSound, CacheSound, FileOp, NoneFree, Written, Outcome, ChainBefore, LedgerStep, AllReferred, NoWaste, SizeStep,
           Seen, Matches, Lies, FileBytes, ChainLength;
      ghost var t, v, node, l0 := tree, View(), nodes[p], l;
      FileHead(p);
      FilePlace(p);
      NoFileOp(t, v, p, node.first);
      LedgerSteps(l, node.first);
      var first := StartChain(p);
      if first == 0 {
        NothingWritten(t, node, offset, src);
        NoChain(t, node);
        SameLength(t, node, offset + |src|, vol.g.BytesPerCluster());
        return ERR_NOSPACE;
      }
      ghost var t1, v1, l1 := tree, View(), l;
      var written := WriteAndGrow(p, offset, src);
      LedgerStepTrans(l0, l1, l, first);
      ChainThere(tree, nodes[p]);
      LengthAfter(t, node, |t1.store[first]|, tree, nodes[p], offset + |src|, vol.g.BytesPerCluster());
      FileOpTrans(t, v, t1, v1, tree, View(), p, first);
      n := if written > 0 then written else ERR_NOSPACE;
      SizeStepOf(node, first, nodes[p], offset, n);
      WriteOutcome(t, node, t1.store[first], tree, nodes[p], offset, src, written);
    }

    /** `fat32_write` once the file has a cluster. */
    method WriteAndGrow(p: Ptr, offset: nat, src: seq<byte>) returns (written: nat)
      requires Valid() && p in nodes && !nodes[p].isDir && nodes[p].parent in nodes && nodes[p].first != 0 && src != []
      modifies `nodes, `l, `tree, vol`disk, vol.buf
      ensures Valid() && vol.Untouched() == old(vol.Untouched()) && nodes.Keys == old(nodes).Keys
      ensures FileOp(old(tree), old(View()), tree, View(), p, nodes[p].first)
      ensures !nodes[p].isDir && nodes[p].first == old(nodes)[p].first && nodes[p].first in old(tree).store
      ensures nodes[p].first in tree.store
      ensures written <= |src| && (written < |src| ==> NoneFree(vol))
      ensures written == Fitting(|tree.store[nodes[p].first]|, offset, |src|)
      ensures Written(old(tree).store[nodes[p].first], tree.store[nodes[p].first],
                      if written > 0 then offset else 0, src[..written])
      ensures NoWaste(|old(tree).store[nodes[p].first]|, |tree.store[nodes[p].first]|, offset + |src|, vol.g.BytesPerCluster())
      ensures LedgerStep(old(l), l, nodes[p].first) && (LeakFree() <==> old(LeakFree()))
      ensures nodes[p].parent == old(nodes)[p].parent
      ensures SizeStep(old(nodes)[p], nodes[p], offset, if written > 0 then written else ERR_NOSPACE)
    {
      hide Valid, FileOp, NoneFree, Written, LedgerStep, AllReferred, NoWaste;
      ghost var t, v, f := tree, View(), nodes[p].first;
      written := WriteData(p, offset, src);
      if written > 0 {
        ghost var t1 := tree;
        WrittenLength(t.store[f], tree.store[f], offset, src[..written]);
        GrowSize(p, offset + written);
        FileOpTrans(t, v, t1, v, tree, View(), p, f);
      }
    }

    /** `node->size`, the copy of the size that the descriptor layer keeps up to date. */
    method SetNodeSize(p: Ptr, size: nat)
      requires Valid() && p in nodes
      modifies `nodes
      ensures Valid() && nodes == old(nodes)[p := old(nodes)[p].(size := size)]
    {
      hide TreeSound, CacheSound, Settled, Owned, IsStore, Handles;
      Tweaked(tree, View(), p, nodes[p].(size := size));
      HandlesPut(nodes, nextPtr, p, nodes[p].(size := size));
      SettledPut(l.chains, vol.g.BytesPerCluster(), View(), p, nodes[p].(size := size));
      ghost var v := View();
      nodes := nodes[p := nodes[p].(size := size)];
      assert View() == PutNode(v, p, v.nodes[p].(size := size));
    }
  }
}
