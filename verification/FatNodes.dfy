/** The driver's node cache, and how it stands to the directory tree on disk. */
module FatNodes {
  import opened Bytes
  import opened FatNames
  import opened FatEntries
  import opened FatTree

  /** Nodes are named by handles; 0 is NULL. */
  type Ptr = nat
  const NULL: Ptr := 0
  const ROOT: Ptr := 1

  /** How many children a directory's node can list. */
  const MAX_CHILDREN: nat := 128

  /** A `vfs_node_t` together with its `fat32_inode_t`. */
  datatype Node = Node(name: seq<byte>, isDir: bool, size: nat, first: nat, fileSize: nat, dirCluster: nat, direntOff: nat,
                       parent: Ptr, children: seq<Ptr>, loaded: bool)

  /** The nodes, the slot each one was read from or written to, and the node of each slot. */
  datatype Cache = Cache(nodes: map<Ptr, Node>, at: map<Ptr, Slot>, holder: map<Slot, Ptr>)

  /** The first cluster of a directory's chain. */
  function HeadOf(root: nat, n: Node): nat { if n.first == 0 then root else n.first }

  /** The size that the descriptor layer reads is the one the driver keeps. */
  predicate InStep(n: Node) { n.size == n.fileSize }

  ghost predicate Matches(n: Node, e: Entry) {
    n.isDir == IsDir(e) && n.first == FirstOf(e) && n.fileSize == SizeOf(e)
  }

  /** Slot `s` lies in the directory of node `d`, which is loaded. */
  ghost predicate InDir(t: Tree, nodes: map<Ptr, Node>, d: Ptr, s: Slot) {
    d in nodes && nodes[d].isDir && nodes[d].loaded && HeadOf(t.root, nodes[d]) == s.dir && Inside(t, s)
  }

  /** The node's chain is there, and is not the root's. */
  ghost predicate HasOwnChain(t: Tree, n: Node) {
    n.fileSize < TWO32 &&
    if n.first == 0 then !n.isDir && n.fileSize == 0 else
    && n.first in t.store && n.first != t.root && (n.first in t.dirs <==> n.isDir) && n.first in t.refs
    && (!n.isDir ==> n.fileSize <= |t.store[n.first]|)
  }

  /** The node alone knows its chain: its entry is in a wild slot, or gone with its directory. */
  ghost predicate Loose(t: Tree, p: Ptr, n: Node) { HasOwnChain(t, n) && (n.first != 0 ==> t.refs[n.first].only == p) }

  /** The same of a node in wild slot `s`, the only one that may refer to its chain. */
  ghost predicate LooseAt(t: Tree, p: Ptr, n: Node, s: Slot) { HasOwnChain(t, n) && (n.first != 0 ==> t.refs[n.first] == Ref(s, p)) }

  /** The node agrees with the entry in its slot, and is the only one there. */
  ghost predicate Anchored(t: Tree, c: Cache, p: Ptr)
    requires p in c.nodes && p in c.at
  {
    c.at[p] in c.holder && c.holder[c.at[p]] == p && Seen(t, c.at[p]) && Matches(c.nodes[p], EntryOf(t, c.at[p]))
  }

  /** A node is younger than its parent, and its entry is in its parent's directory, unless that is gone. */
  ghost predicate NodeSound(t: Tree, c: Cache, p: Ptr)
    requires p in c.nodes
  {
    var n := c.nodes[p];
    if p == ROOT then n.isDir && n.first == 0
    else
      && n.parent < p
      && if n.parent !in c.nodes then p !in c.at && Loose(t, p, n) else
         && p in c.at && InDir(t, c.nodes, n.parent, c.at[p])
         && if c.at[p] in t.wild then LooseAt(t, p, n, c.at[p]) else Anchored(t, c, p)
  }

  predicate NoRepeats(s: seq<Ptr>) { forall i, j :: 0 <= i < j < |s| ==> s[i] != s[j] }

  ghost predicate ChildrenSound(nodes: map<Ptr, Node>, d: Ptr)
    requires d in nodes
  {
    var n := nodes[d];
    && NoRepeats(n.children)
    && (n.children != [] ==> n.isDir && n.loaded)
    && forall p :: p in n.children ==> p != ROOT && p in nodes && nodes[p].parent == d
  }

  /** Wild slots are in loaded directories. */
  ghost predicate WildTended(t: Tree, nodes: map<Ptr, Node>) {
    forall s :: s in t.wild ==> InDir(t, nodes, t.wild[s], s)
  }

  ghost predicate CacheSound(t: Tree, c: Cache) {
    && NULL !in c.nodes && ROOT in c.nodes && WildTended(t, c.nodes)
    && forall p :: p in c.nodes ==> NodeSound(t, c, p) && ChildrenSound(c.nodes, p)
  }

  // ---- Agreement of a directory's cached children with its entries

  ghost predicate Held(c: Cache, s: Slot) {
    s in c.holder && c.holder[s] in c.nodes && c.holder[s] != ROOT && c.holder[s] in c.at && c.at[c.holder[s]] == s
  }

  ghost predicate HeldBy(c: Cache, d: Ptr, s: Slot)
    requires d in c.nodes
  {
    Held(c, s) && c.holder[s] in c.nodes[d].children
  }

  /** Every entry a scan of directory `d` would find has its node, which `d` lists. */
  ghost predicate Complete(t: Tree, c: Cache, d: Ptr)
    requires d in c.nodes
  {
    forall s {:trigger HeldBy(c, d, s)} {:trigger Seen(t, s)} :: Seen(t, s) && s.dir == HeadOf(t.root, c.nodes[d]) ==> HeldBy(c, d, s)
  }

  /** The name a scan gives an entry that no long-name entries precede. */
  function NameOf(e: Entry): seq<byte> { CStr(Parsed(ShortOf(e))) }

  /** The cached names of directory `d` are those of its entries, and both copies of the sizes agree. */
  ghost predicate NamesAgree(t: Tree, c: Cache, d: Ptr)
    requires d in c.nodes
  {
    forall p :: p in c.nodes[d].children ==>
      p in c.nodes && p in c.at && Inside(t, c.at[p]) && c.nodes[p].name == NameOf(EntryOf(t, c.at[p])) && InStep(c.nodes[p])
  }

  // ---- Facts about a sound cache

  lemma NodeFacts(t: Tree, c: Cache, p: Ptr)
    requires TreeSound(t) && CacheSound(t, c) && p in c.nodes
    ensures NodeSound(t, c, p) && ChildrenSound(c.nodes, p)
    ensures p != ROOT ==> HasOwnChain(t, c.nodes[p])
    ensures c.nodes[p].isDir ==> HeadOf(t.root, c.nodes[p]) in t.dirs
    ensures p in c.at && p != ROOT && c.at[p] !in t.wild ==> EntrySound(t, c.at[p], EntryOf(t, c.at[p]))
  {
    assert NodeSound(t, c, p) && ChildrenSound(c.nodes, p);
    if p != ROOT && p in c.at && c.at[p] !in t.wild {
      assert EntrySound(t, c.at[p], EntryOf(t, c.at[p]));
      FirstBound(EntryOf(t, c.at[p]));
    }
  }

  lemma NullIsNone(t: Tree, c: Cache)
    requires CacheSound(t, c)
    ensures NULL !in c.nodes && ROOT in c.nodes
  {}

  lemma SoundNode(t: Tree, c: Cache, p: Ptr)
    requires CacheSound(t, c) && p in c.nodes
    ensures NodeSound(t, c, p) && ChildrenSound(c.nodes, p)
  {}

  /** No two nodes have the same chain. */
  lemma FirstUnique(t: Tree, c: Cache, p: Ptr, q: Ptr)
    requires TreeSound(t) && CacheSound(t, c) && p in c.nodes && q in c.nodes
    requires c.nodes[p].first == c.nodes[q].first != 0
    ensures p == q
  {
    NodeFacts(t, c, p);
    NodeFacts(t, c, q);
  }

  /** Two directories with the same chain are the same node. */
  lemma HeadUnique(t: Tree, c: Cache, d: Ptr, e: Ptr)
    requires TreeSound(t) && CacheSound(t, c) && d in c.nodes && e in c.nodes && c.nodes[d].isDir && c.nodes[e].isDir
    requires HeadOf(t.root, c.nodes[d]) == HeadOf(t.root, c.nodes[e])
    ensures d == e
  {
    NodeFacts(t, c, d);
    NodeFacts(t, c, e);
    if c.nodes[d].first != 0 && c.nodes[e].first != 0 { FirstUnique(t, c, d, e); }
  }

  /** A node whose entry is in directory `d` has `d` as its parent. */
  lemma EntryInDir(t: Tree, c: Cache, d: Ptr, p: Ptr)
    requires TreeSound(t) && CacheSound(t, c) && d in c.nodes && c.nodes[d].isDir && p in c.nodes && p != ROOT
    requires p in c.at && c.at[p].dir == HeadOf(t.root, c.nodes[d])
    ensures c.nodes[p].parent == d && c.nodes[d].loaded
  {
    NodeFacts(t, c, p);
    HeadUnique(t, c, d, c.nodes[p].parent);
  }

  /** Wild slots in directory `d` are kept with `d`. */
  lemma WildInDir(t: Tree, c: Cache, d: Ptr, s: Slot)
    requires TreeSound(t) && CacheSound(t, c) && d in c.nodes && c.nodes[d].isDir && s in t.wild
    requires s.dir == HeadOf(t.root, c.nodes[d])
    ensures t.wild[s] == d && c.nodes[d].loaded
  {
    HeadUnique(t, c, d, t.wild[s]);
  }

  // ---- The steps the driver takes

  lemma TreeStep(t: Tree, t': Tree, c: Cache)
    requires CacheSound(t, c) && SameEntries(t, t') && t'.root == t.root
    ensures CacheSound(t', c)
    ensures forall d :: d in c.nodes ==> Complete(t, c, d) ==> Complete(t', c, d)
    ensures forall d :: d in c.nodes ==> NamesAgree(t, c, d) ==> NamesAgree(t', c, d)
  {
    forall p | p in c.nodes
      ensures NodeSound(t', c, p) && ChildrenSound(c.nodes, p)
    {
      assert NodeSound(t, c, p) && ChildrenSound(c.nodes, p);
    }
    assert WildTended(t', c.nodes);
    forall d | d in c.nodes && Complete(t, c, d)
      ensures Complete(t', c, d)
    {
      forall s | Seen(t', s) && s.dir == HeadOf(t'.root, c.nodes[d])
        ensures HeldBy(c, d, s)
      {
        assert Seen(t, s);
      }
    }
  }

  /** Slot `s` gets an entry, and perhaps chain `f`, which no node has. */
  ghost predicate SlotStep(t: Tree, c: Cache, s: Slot, f: nat) {
    && CacheSound(t, c) && Inside(t, s)
    && (f != 0 ==> f in t.store && forall q :: q in c.nodes ==> c.nodes[q].first != f)
  }

  /** A file's node and its entry change together; in a wild slot the entry need not agree with the node. */
  ghost predicate FileStep(t: Tree, c: Cache, p: Ptr, e: Entry, n: Node, f: nat) {
    && CacheSound(t, c) && p in c.nodes && p != ROOT && !c.nodes[p].isDir && c.nodes[p].parent in c.nodes
    && p in c.at && Inside(t, c.at[p])
    && Shows(e) == Shows(EntryOf(t, c.at[p])) && ShortOf(e) == ShortOf(EntryOf(t, c.at[p]))
    && n == c.nodes[p].(first := n.first, size := n.size, fileSize := n.fileSize)
    && (InStep(c.nodes[p]) ==> InStep(n))
    && (f != 0 ==> forall q :: q in c.nodes ==> c.nodes[q].first != f)
    && if c.at[p] in t.wild then LooseAt(FilePut(t, c, p, e, f), p, n, c.at[p]) else Matches(n, e)
  }

  /** The tree once the entry of node `p` is `e`, and has chain `f` if that is not 0. */
  ghost function FilePut(t: Tree, c: Cache, p: Ptr, e: Entry, f: nat): (t': Tree)
    requires p in c.at && Inside(t, c.at[p])
    ensures t'.root == t.root && t'.dirs == t.dirs && t'.wild == t.wild && t'.store == PutBytes(t, c.at[p], e)
  {
    PutEntry(t, c.at[p], e, f, if c.at[p] in t.wild then p else 0)
  }

  function PutNode(c: Cache, p: Ptr, n: Node): Cache { c.(nodes := c.nodes[p := n]) }

  lemma LooseAfterPut(t: Tree, s: Slot, e: Entry, f: nat, only: nat, q: Ptr, n: Node)
    requires Inside(t, s) && Loose(t, q, n) && (f == 0 || n.first != f)
    ensures Loose(PutEntry(t, s, e, f, only), q, n)
    ensures forall r :: LooseAt(t, q, n, r) ==> LooseAt(PutEntry(t, s, e, f, only), q, n, r)
  {}

  lemma InDirAfterPut(t: Tree, nodes: map<Ptr, Node>, s: Slot, e: Entry, f: nat, only: nat, p: Ptr, n: Node, d: Ptr, r: Slot)
    requires Inside(t, s) && InDir(t, nodes, d, r) && p in nodes
    requires n == nodes[p].(first := n.first, size := n.size, fileSize := n.fileSize)
    requires !nodes[p].isDir
    ensures InDir(PutEntry(t, s, e, f, only), nodes[p := n], d, r)
  {
    SeenAfterPut(t, s, e, f, only, r);
  }

  lemma UpdatedNode(t: Tree, c: Cache, p: Ptr, e: Entry, n: Node, f: nat, q: Ptr)
    requires FileStep(t, c, p, e, n, f) && q in c.nodes
    ensures NodeSound(FilePut(t, c, p, e, f), PutNode(c, p, n), q)
  {
    hide CacheSound, Shows, HasOwnChain, InDir, PutEntry, EntryOf, ChildrenSound;
    SoundNode(t, c, p);
    SoundNode(t, c, q);
    var only := if c.at[p] in t.wild then p else 0;
    if q != ROOT {
      if q in c.at {
        SeenAfterPut(t, c.at[p], e, f, only, c.at[q]);
        InDirAfterPut(t, c.nodes, c.at[p], e, f, only, p, n, c.nodes[q].parent, c.at[q]);
      }
      if q != p && Loose(t, q, c.nodes[q]) { LooseAfterPut(t, c.at[p], e, f, only, q, c.nodes[q]); }
    }
  }

  lemma UpdatedChildren(nodes: map<Ptr, Node>, p: Ptr, n: Node, q: Ptr)
    requires p in nodes && q in nodes && ChildrenSound(nodes, q)
    requires n == nodes[p].(first := n.first, size := n.size, fileSize := n.fileSize)
    ensures ChildrenSound(nodes[p := n], q)
  {}

  lemma UpdatedComplete(t: Tree, c: Cache, p: Ptr, e: Entry, n: Node, f: nat, d: Ptr)
    requires FileStep(t, c, p, e, n, f) && d in c.nodes && c.nodes[d].isDir && Complete(t, c, d)
    ensures Complete(FilePut(t, c, p, e, f), PutNode(c, p, n), d)
  {
    assert NodeSound(t, c, p);
    var t', c' := FilePut(t, c, p, e, f), PutNode(c, p, n);
    forall s | Seen(t', s) && s.dir == HeadOf(t.root, c.nodes[d])
      ensures HeldBy(c', d, s)
    {
      SeenAfterPut(t, c.at[p], e, f, if c.at[p] in t.wild then p else 0, s);
      assert Seen(t, s) && HeldBy(c, d, s);
    }
  }

  lemma UpdatedNames(t: Tree, c: Cache, p: Ptr, e: Entry, n: Node, f: nat, d: Ptr)
    requires FileStep(t, c, p, e, n, f) && d in c.nodes && NamesAgree(t, c, d)
    ensures NamesAgree(FilePut(t, c, p, e, f), PutNode(c, p, n), d)
  {
    assert NodeSound(t, c, p);
    var t', c' := FilePut(t, c, p, e, f), PutNode(c, p, n);
    forall q | q in c'.nodes[d].children
      ensures q in c'.nodes && q in c'.at && Inside(t', c'.at[q]) && c'.nodes[q].name == NameOf(EntryOf(t', c'.at[q]))
      ensures InStep(c'.nodes[q])
    {
      SeenAfterPut(t, c.at[p], e, f, if c.at[p] in t.wild then p else 0, c.at[q]);
    }
  }

  lemma FileUpdated(t: Tree, c: Cache, p: Ptr, e: Entry, n: Node, f: nat)
    requires FileStep(t, c, p, e, n, f)
    ensures CacheSound(FilePut(t, c, p, e, f), PutNode(c, p, n))
  {
    hide NodeSound, LooseAt, Matches, InDir;
    var t', c' := FilePut(t, c, p, e, f), PutNode(c, p, n);
    forall q | q in c.nodes
      ensures NodeSound(t', c', q) && ChildrenSound(c'.nodes, q)
    {
      SoundNode(t, c, q);
      UpdatedNode(t, c, p, e, n, f, q);
      UpdatedChildren(c.nodes, p, n, q);
    }
    WildAfterPut(t, c.nodes, c.at[p], e, f, if c.at[p] in t.wild then p else 0, c'.nodes);
  }

  lemma WildAfterPut(t: Tree, nodes: map<Ptr, Node>, s: Slot, e: Entry, f: nat, only: nat, nodes': map<Ptr, Node>)
    requires Inside(t, s) && WildTended(t, nodes)
    requires forall d :: d in nodes && nodes[d].isDir ==> d in nodes' && nodes'[d].isDir && nodes'[d].first == nodes[d].first
                                                          && (nodes[d].loaded ==> nodes'[d].loaded)
    ensures WildTended(PutEntry(t, s, e, f, only), nodes')
  {
    forall r | r in t.wild
      ensures InDir(PutEntry(t, s, e, f, only), nodes', t.wild[r], r)
    {
      assert InDir(t, nodes, t.wild[r], r);
      SeenAfterPut(t, s, e, f, only, r);
    }
  }

  // ---- A new node in a directory

  /** No node claims slot `s`. */
  ghost predicate Vacant(c: Cache, s: Slot) {
    forall q :: q in c.nodes && q != ROOT && q in c.at ==> c.at[q] != s
  }

  /** Writing an entry where no node that relies on it is leaves the cache sound. */
  lemma VacantWritten(t: Tree, c: Cache, s: Slot, e: Entry, f: nat, only: nat)
    requires SlotStep(t, c, s, f) && (Vacant(c, s) || s in t.wild)
    ensures CacheSound(PutEntry(t, s, e, f, only), c)
  {
    var t' := PutEntry(t, s, e, f, only);
    forall q | q in c.nodes
      ensures NodeSound(t', c, q) && ChildrenSound(c.nodes, q)
    {
      assert NodeSound(t, c, q) && ChildrenSound(c.nodes, q);
      if q != ROOT && q in c.at { SeenAfterPut(t, s, e, f, only, c.at[q]); }
    }
    WildAfterPut(t, c.nodes, s, e, f, only, c.nodes);
  }

  lemma VacantNames(t: Tree, c: Cache, s: Slot, e: Entry, f: nat, only: nat, d: Ptr)
    requires SlotStep(t, c, s, f) && d in c.nodes && NamesAgree(t, c, d)
    requires Vacant(c, s) || s.dir != HeadOf(t.root, c.nodes[d])
    ensures NamesAgree(PutEntry(t, s, e, f, only), c, d)
  {
    var t' := PutEntry(t, s, e, f, only);
    forall q | q in c.nodes[d].children
      ensures q in c.nodes && q in c.at && Inside(t', c.at[q]) && c.nodes[q].name == NameOf(EntryOf(t', c.at[q]))
      ensures InStep(c.nodes[q])
    {
      assert ChildrenSound(c.nodes, d) && NodeSound(t, c, q);
      SeenAfterPut(t, s, e, f, only, c.at[q]);
    }
  }

  /** A slot that becomes wild before any node claims it. */
  lemma SpoiledVacant(t: Tree, c: Cache, s: Slot, d: Ptr)
    requires CacheSound(t, c) && InDir(t, c.nodes, d, s) && (Vacant(c, s) || s in t.wild)
    ensures CacheSound(Spoil(t, s, d), c)
  {
    var t' := Spoil(t, s, d);
    forall q | q in c.nodes
      ensures NodeSound(t', c, q) && ChildrenSound(c.nodes, q)
    {
      assert NodeSound(t, c, q) && ChildrenSound(c.nodes, q);
    }
  }

  ghost predicate AddStep(t: Tree, c: Cache, d: Ptr, p: Ptr, s: Slot, n: Node) {
    && CacheSound(t, c) && InDir(t, c.nodes, d, s) && p != NULL && (forall q :: q in c.nodes ==> q < p) && n.parent == d && n.children == []
    && if s in t.wild then LooseAt(t, p, n, s) else Seen(t, s) && Vacant(c, s) && Matches(n, EntryOf(t, s))
  }

  /** The node is listed among the children of `d` if there is room. */
  function Adopt(nodes: map<Ptr, Node>, d: Ptr, p: Ptr, n: Node): map<Ptr, Node>
    requires d in nodes
  {
    var children := nodes[d].children;
    nodes[p := n][d := nodes[d].(children := if |children| < MAX_CHILDREN then children + [p] else children)]
  }

  function AddNode(c: Cache, d: Ptr, p: Ptr, s: Slot, n: Node): Cache
    requires d in c.nodes
  {
    Cache(Adopt(c.nodes, d, p, n), c.at[p := s], c.holder[s := p])
  }

  lemma InDirAfterAdopt(t: Tree, nodes: map<Ptr, Node>, d: Ptr, p: Ptr, n: Node, e: Ptr, s: Slot)
    requires d in nodes && p !in nodes && InDir(t, nodes, e, s)
    ensures InDir(t, Adopt(nodes, d, p, n), e, s)
  {}

  lemma AddedNode(t: Tree, c: Cache, d: Ptr, p: Ptr, s: Slot, n: Node, q: Ptr)
    requires AddStep(t, c, d, p, s, n) && (q == p || q in c.nodes)
    ensures NodeSound(t, AddNode(c, d, p, s, n), q)
  {
    hide CacheSound, Shows, EntryOf, ChildrenSound, Inside;
    NullIsNone(t, c);
    InDirAfterAdopt(t, c.nodes, d, p, n, d, s);
    if q != p {
      SoundNode(t, c, q);
      if q != ROOT && q in c.at { InDirAfterAdopt(t, c.nodes, d, p, n, c.nodes[q].parent, c.at[q]); }
    }
  }

  lemma AddedChildren(nodes: map<Ptr, Node>, d: Ptr, p: Ptr, n: Node, q: Ptr)
    requires d in nodes && p !in nodes && p != ROOT && n.parent == d && n.children == [] && nodes[d].isDir && nodes[d].loaded
    requires q == p || (q in nodes && ChildrenSound(nodes, q))
    ensures ChildrenSound(Adopt(nodes, d, p, n), q)
  {}

  lemma NodeAdded(t: Tree, c: Cache, d: Ptr, p: Ptr, s: Slot, n: Node)
    requires AddStep(t, c, d, p, s, n)
    ensures CacheSound(t, AddNode(c, d, p, s, n))
  {
    hide Loose, Anchored, Matches, Seen, Vacant;
    var c' := AddNode(c, d, p, s, n);
    forall q | q in c'.nodes
      ensures NodeSound(t, c', q) && ChildrenSound(c'.nodes, q)
    {
      if q != p { assert ChildrenSound(c.nodes, q); }
      AddedNode(t, c, d, p, s, n, q);
      AddedChildren(c.nodes, d, p, n, q);
    }
    forall r | r in t.wild
      ensures InDir(t, c'.nodes, t.wild[r], r)
    {
      InDirAfterAdopt(t, c.nodes, d, p, n, t.wild[r], r);
    }
  }

  /** Every entry of directory `d` but that in `s` has its node. */
  ghost predicate CompleteBut(t: Tree, c: Cache, d: Ptr, s: Slot)
    requires d in c.nodes
  {
    forall r :: Seen(t, r) && r != s && r.dir == HeadOf(t.root, c.nodes[d]) ==> HeldBy(c, d, r)
  }

  /** A directory stays complete, `d` itself if it has room. */
  lemma AddedComplete(t: Tree, c: Cache, d: Ptr, p: Ptr, s: Slot, n: Node, e: Ptr)
    requires AddStep(t, c, d, p, s, n) && e in c.nodes && CompleteBut(t, c, e, s)
    requires Seen(t, s) && s.dir == HeadOf(t.root, c.nodes[e]) ==> e == d && |c.nodes[d].children| < MAX_CHILDREN
    ensures Complete(t, AddNode(c, d, p, s, n), e)
  {
    var c' := AddNode(c, d, p, s, n);
    forall r | Seen(t, r) && r.dir == HeadOf(t.root, c'.nodes[e])
      ensures HeldBy(c', e, r)
    {
      if r != s {
        assert HeldBy(c, e, r);
      } else {
        assert (c.nodes[d].children + [p])[|c.nodes[d].children|] == p;
      }
    }
  }

  lemma AddedNames(t: Tree, c: Cache, d: Ptr, p: Ptr, s: Slot, n: Node, e: Ptr)
    requires AddStep(t, c, d, p, s, n) && e in c.nodes && NamesAgree(t, c, e)
    requires e == d && |c.nodes[d].children| < MAX_CHILDREN ==> n.name == NameOf(EntryOf(t, s)) && InStep(n)
    ensures NamesAgree(t, AddNode(c, d, p, s, n), e)
  {
    hide CacheSound, Shows, Matches, LooseAt, NameOf;
    SoundNode(t, c, e);
    var c' := AddNode(c, d, p, s, n);
    forall q | q in c'.nodes[e].children
      ensures q in c'.nodes && q in c'.at && Inside(t, c'.at[q]) && c'.nodes[q].name == NameOf(EntryOf(t, c'.at[q]))
      ensures InStep(c'.nodes[q])
    {
      if q != p { assert q in c.nodes[e].children; }
    }
  }

  // ---- A node less

  function Without(s: seq<Ptr>, p: Ptr): (r: seq<Ptr>)
    ensures forall q :: q in r <==> q in s && q != p
    ensures NoRepeats(s) ==> NoRepeats(r)
  {
    if s == [] then [] else
    assert NoRepeats(s) ==> NoRepeats(s[1..]) && s[0] !in s[1..];
    assert forall q :: q in s <==> q == s[0] || q in s[1..];
    if s[0] == p then Without(s[1..], p) else [s[0]] + Without(s[1..], p)
  }

  function Orphan(nodes: map<Ptr, Node>, d: Ptr, q: Ptr): map<Ptr, Node>
    requires d in nodes
  {
    nodes[d := nodes[d].(children := Without(nodes[d].children, q))] - {q}
  }

  /** Node `q` goes, and nodes whose entries were in its chain have none any more. */
  function RemoveNode(c: Cache, d: Ptr, q: Ptr): Cache
    requires d in c.nodes && q in c.nodes
  {
    c.(nodes := Orphan(c.nodes, d, q), at := PlacesLeft(c, q))
  }

  function PlacesLeft(c: Cache, q: Ptr): map<Ptr, Slot>
    requires q in c.nodes
  {
    if c.nodes[q].isDir then map p | p in c.at && c.at[p].dir != c.nodes[q].first :: c.at[p] else c.at
  }

  /** The nodes that have their entries in chain `f`. */
  function Strays(c: Cache, f: nat): map<Slot, Ptr> {
    map s | s in c.holder && s.dir == f && c.holder[s] in c.nodes && c.holder[s] in c.at && c.at[c.holder[s]] == s :: c.holder[s]
  }

  /** The tree without the entry of `q` and without its chain. */
  ghost function UnlinkTree(t: Tree, c: Cache, q: Ptr): Tree
    requires q in c.nodes && q in c.at && Inside(t, c.at[q])
  {
    var t1 := PutEntry(t, c.at[q], Deleted(EntryOf(t, c.at[q])), 0, 0);
    if c.nodes[q].first == 0 then t1 else DropTree(t1, c.nodes[q].first, Strays(c, c.nodes[q].first))
  }

  ghost predicate RemoveStep(t: Tree, c: Cache, q: Ptr) {
    && TreeSound(t) && CacheSound(t, c) && q in c.nodes && q != ROOT && c.nodes[q].children == [] && c.nodes[q].parent in c.nodes
    && q in c.at && Inside(t, c.at[q])
  }

  lemma DeletedHidden(e: Entry)
    ensures var d := Deleted(e); d[0] == DELETED && !Shows(d) && AttrOf(d) == AttrOf(e) && FirstOf(d) == FirstOf(e)
  {
    var d := Deleted(e);
    assert d[20..22] == e[20..22] && d[26..28] == e[26..28];
  }

  lemma NotInZero(t: Tree, r: Slot)
    requires TreeSound(t)
    ensures Inside(t, r) || r in t.wild ==> r.dir != 0
  {}

  /** What is left inside: all but the chain that goes; the entry of `q` is marked deleted. */
  lemma InsideAfterUnlink(t: Tree, c: Cache, q: Ptr, r: Slot)
    requires RemoveStep(t, c, q)
    ensures var t' := UnlinkTree(t, c, q);
      && (Inside(t', r) <==> Inside(t, r) && r.dir != c.nodes[q].first)
      && (Inside(t', r) ==> EntryOf(t', r) == if r == c.at[q] then Deleted(EntryOf(t, r)) else EntryOf(t, r))
      && (Seen(t', r) <==> Seen(t, r) && r.dir != c.nodes[q].first && r != c.at[q])
      && (r in t'.wild <==> r in t.wild && r.dir != c.nodes[q].first)
  {
    hide DropTree, PutEntry, CacheSound, Deleted, Shows, EntryOf;
    var e, f := Deleted(EntryOf(t, c.at[q])), c.nodes[q].first;
    DeletedHidden(EntryOf(t, c.at[q]));
    SeenAfterPut(t, c.at[q], e, 0, 0, r);
    if f == 0 {
      NotInZero(t, r);
    } else {
      InsideDropped(PutEntry(t, c.at[q], e, 0, 0), f, Strays(c, f), r);
    }
  }

  predicate SameChain(n: Node, n': Node) { n'.first == n.first && n'.isDir == n.isDir && n'.fileSize == n.fileSize && n'.parent == n.parent }

  lemma LooseLeft(t: Tree, c: Cache, q: Ptr, r: Ptr, n: Node, n': Node)
    requires RemoveStep(t, c, q) && Loose(t, r, n) && r != NULL && SameChain(n, n') && (n.first == 0 || n.first != c.nodes[q].first)
    ensures Loose(UnlinkTree(t, c, q), r, n')
    ensures forall s :: LooseAt(t, r, n, s) ==> LooseAt(UnlinkTree(t, c, q), r, n', s)
  {
    hide TreeSound, CacheSound, Deleted, EntryOf, SetEntry;
  }

  /** A node whose entry goes becomes one that alone knows its chain. */
  lemma AnchorLost(t: Tree, c: Cache, q: Ptr, r: Ptr, n': Node)
    requires RemoveStep(t, c, q) && r in c.nodes && r in c.at && Anchored(t, c, r) && HasOwnChain(t, c.nodes[r])
    requires SameChain(c.nodes[r], n')
    requires c.nodes[r].first != 0 ==> t.refs[c.nodes[r].first] == Ref(c.at[r], 0) && c.nodes[r].first != c.nodes[q].first
    requires c.at[r].dir == c.nodes[q].first != 0
    ensures Loose(UnlinkTree(t, c, q), r, n')
  {
    hide TreeSound, CacheSound, Deleted, EntryOf, SetEntry, Matches, Seen;
    assert c.at[r] in Strays(c, c.nodes[q].first);
  }

  lemma NodeRemoved(t: Tree, c: Cache, q: Ptr, d: Ptr)
    requires RemoveStep(t, c, q) && d == c.nodes[q].parent
    ensures d != q && CacheSound(UnlinkTree(t, c, q), RemoveNode(c, d, q))
  {
    hide Seen, Matches, UnlinkTree;
    NodeFacts(t, c, q);
    ParentElsewhere(t, c, q);
    var t', c' := UnlinkTree(t, c, q), RemoveNode(c, d, q);
    forall r | r in c'.nodes
      ensures NodeSound(t', c', r) && ChildrenSound(c'.nodes, r)
    {
      assert ChildrenSound(c.nodes, r);
      RemovedChildren(c.nodes, d, q, r);
      RemovedNode(t, c, d, q, r);
    }
    forall s | s in t'.wild
      ensures InDir(t', c'.nodes, t'.wild[s], s)
    {
      InsideAfterUnlink(t, c, q, s);
      StillInDir(t, c, q, d, t.wild[s], s);
      WildStays(t, c, q, s);
    }
  }

  lemma WildStays(t: Tree, c: Cache, q: Ptr, s: Slot)
    requires RemoveStep(t, c, q) && s in UnlinkTree(t, c, q).wild
    ensures s in t.wild && UnlinkTree(t, c, q).wild[s] == t.wild[s] && UnlinkTree(t, c, q).root == t.root
  {}

  /** A directory does not hold its own entry. */
  lemma ParentElsewhere(t: Tree, c: Cache, q: Ptr)
    requires RemoveStep(t, c, q)
    ensures c.nodes[q].parent != q
  {
    NodeFacts(t, c, q);
  }

  lemma StillInDir(t: Tree, c: Cache, q: Ptr, d: Ptr, e: Ptr, s: Slot)
    requires RemoveStep(t, c, q) && d == c.nodes[q].parent && d != q && InDir(t, c.nodes, e, s) && s.dir != c.nodes[q].first
    ensures e != q && InDir(UnlinkTree(t, c, q), RemoveNode(c, d, q).nodes, e, s)
  {
    hide UnlinkTree, PlacesLeft, CacheSound, EntryOf, Seen;
    NodeFacts(t, c, q);
    InsideAfterUnlink(t, c, q, s);
    UnlinkRoot(t, c, q);
  }

  lemma UnlinkRoot(t: Tree, c: Cache, q: Ptr)
    requires RemoveStep(t, c, q)
    ensures UnlinkTree(t, c, q).root == t.root
  {}

  lemma RemovedNode(t: Tree, c: Cache, d: Ptr, q: Ptr, r: Ptr)
    requires RemoveStep(t, c, q) && d == c.nodes[q].parent && d != q && r in c.nodes && r != q
    ensures NodeSound(UnlinkTree(t, c, q), RemoveNode(c, d, q), r)
  {
    hide InDir, CacheSound, UnlinkTree, Anchored, TreeSound, EntrySound, ChildrenSound, HasOwnChain;
    var n' := RemoveNode(c, d, q).nodes[r];
    NodeFacts(t, c, r);
    NullIsNone(t, c);
    if r != ROOT {
      if c.nodes[r].first != 0 && c.nodes[r].first == c.nodes[q].first { FirstUnique(t, c, r, q); }
      if r !in c.at {
        LooseLeft(t, c, q, r, c.nodes[r], n');
      } else if c.at[r].dir == c.nodes[q].first {
        StrayLeft(t, c, q, r, n');
      } else {
        InsideAfterUnlink(t, c, q, c.at[r]);
        StillInDir(t, c, q, d, c.nodes[r].parent, c.at[r]);
        if c.at[r] in t.wild { LooseLeft(t, c, q, r, c.nodes[r], n'); } else { StillAnchored(t, c, d, q, r); }
      }
    }
  }

  /** A node whose entry goes with the directory of `q` is then on its own. */
  lemma StrayLeft(t: Tree, c: Cache, q: Ptr, r: Ptr, n': Node)
    requires RemoveStep(t, c, q) && r in c.nodes && r != q && r != ROOT && r in c.at && c.at[r].dir == c.nodes[q].first
    requires (c.nodes[r].first == 0 || c.nodes[r].first != c.nodes[q].first) && SameChain(c.nodes[r], n')
    ensures n'.parent == q && r !in PlacesLeft(c, q) && Loose(UnlinkTree(t, c, q), r, n')
  {
    hide UnlinkTree, Strays;
    NodeFacts(t, c, q);
    NodeFacts(t, c, r);
    NullIsNone(t, c);
    EntryInDir(t, c, q, r);
    if c.at[r] in t.wild { LooseLeft(t, c, q, r, c.nodes[r], n'); } else { AnchorLost(t, c, q, r, n'); }
  }

  lemma StillAnchored(t: Tree, c: Cache, d: Ptr, q: Ptr, r: Ptr)
    requires RemoveStep(t, c, q) && d == c.nodes[q].parent && d != q && r in c.nodes && r != q && r != ROOT && r in c.at
    requires c.at[r].dir != c.nodes[q].first && Anchored(t, c, r) && c.at[r] !in t.wild
    ensures r in RemoveNode(c, d, q).at && Anchored(UnlinkTree(t, c, q), RemoveNode(c, d, q), r)
  {
    hide UnlinkTree, HasOwnChain, TreeSound;
    assert NodeSound(t, c, q);
    InsideAfterUnlink(t, c, q, c.at[r]);
  }

  lemma RemovedChildren(nodes: map<Ptr, Node>, d: Ptr, q: Ptr, r: Ptr)
    requires d in nodes && q in nodes && d == nodes[q].parent && d != q && r in nodes && r != q && ChildrenSound(nodes, r)
    ensures ChildrenSound(Orphan(nodes, d, q), r)
  {
    var nodes' := Orphan(nodes, d, q);
    forall p | p in nodes'[r].children
      ensures p != ROOT && p in nodes' && nodes'[p].parent == r
    {
      assert p in nodes[r].children;
    }
  }

  lemma RemovedComplete(t: Tree, c: Cache, d: Ptr, q: Ptr, e: Ptr)
    requires RemoveStep(t, c, q) && d == c.nodes[q].parent && d != q && e in c.nodes && e != q && c.nodes[e].isDir && Complete(t, c, e)
    ensures Complete(UnlinkTree(t, c, q), RemoveNode(c, d, q), e)
  {
    hide TreeSound, CacheSound, Shows;
    var t', c' := UnlinkTree(t, c, q), RemoveNode(c, d, q);
    forall s | Seen(t', s) && s.dir == HeadOf(t'.root, c'.nodes[e])
      ensures HeldBy(c', e, s)
    {
      InsideAfterUnlink(t, c, q, s);
      assert HeldBy(c, e, s);
    }
  }

  lemma ChildOf(t: Tree, c: Cache, d: Ptr, p: Ptr)
    requires CacheSound(t, c) && d in c.nodes && p in c.nodes[d].children
    ensures p in c.nodes && p != ROOT && c.nodes[p].parent == d
  {
    assert ChildrenSound(c.nodes, d);
  }

  lemma RemovedNames(t: Tree, c: Cache, d: Ptr, q: Ptr, e: Ptr)
    requires RemoveStep(t, c, q) && d == c.nodes[q].parent && d != q
    requires e in c.nodes && e != q && NamesAgree(t, c, e) && (e == d ==> c.at[q] !in t.wild)
    ensures NamesAgree(UnlinkTree(t, c, q), RemoveNode(c, d, q), e)
  {
    hide TreeSound, CacheSound, NameOf, Shows, UnlinkTree, PlacesLeft;
    var t', c' := UnlinkTree(t, c, q), RemoveNode(c, d, q);
    forall p | p in c'.nodes[e].children
      ensures p in c'.nodes && p in c'.at && Inside(t', c'.at[p]) && c'.nodes[p].name == NameOf(EntryOf(t', c'.at[p]))
      ensures InStep(c'.nodes[p])
    {
      ChildOf(t, c, e, p);
      RemainingPlace(t, c, d, q, p);
      InsideAfterUnlink(t, c, q, c.at[p]);
    }
  }

  /** The other children of a directory that stays have their entries elsewhere. */
  lemma RemainingPlace(t: Tree, c: Cache, d: Ptr, q: Ptr, p: Ptr)
    requires RemoveStep(t, c, q) && d == c.nodes[q].parent && d != q && p in c.nodes && p != q && p != ROOT
    requires c.nodes[p].parent in c.nodes && c.nodes[p].parent != q && (c.nodes[p].parent == d ==> c.at[q] !in t.wild)
    ensures p in c.at && c.at[p] != c.at[q] && c.at[p].dir != c.nodes[q].first && p in RemoveNode(c, d, q).at
    ensures RemoveNode(c, d, q).at[p] == c.at[p]
  {
    NodeFacts(t, c, q);
    NodeFacts(t, c, p);
    if c.at[p].dir == c.nodes[q].first { EntryInDir(t, c, q, p); }
    if c.at[p] == c.at[q] { HeadUnique(t, c, d, c.nodes[p].parent); }
  }

  /** The node's copy of the size differs, or it is marked as loaded. */
  predicate Tweak(n: Node, n': Node) { n' == n.(size := n'.size, loaded := n'.loaded) && (n.loaded ==> n'.loaded) }

  lemma InDirTweaked(t: Tree, nodes: map<Ptr, Node>, p: Ptr, n: Node, d: Ptr, s: Slot)
    requires p in nodes && Tweak(nodes[p], n) && InDir(t, nodes, d, s)
    ensures InDir(t, nodes[p := n], d, s)
  {}

  lemma NodeTweaked(t: Tree, c: Cache, p: Ptr, n: Node, q: Ptr)
    requires p in c.nodes && Tweak(c.nodes[p], n) && q in c.nodes && NodeSound(t, c, q)
    ensures NodeSound(t, PutNode(c, p, n), q)
  {
    hide InDir, Seen, EntryOf;
    if q != ROOT && q in c.at && c.nodes[q].parent in c.nodes { InDirTweaked(t, c.nodes, p, n, c.nodes[q].parent, c.at[q]); }
  }

  /** Neither matters to the driver. */
  lemma Tweaked(t: Tree, c: Cache, p: Ptr, n: Node)
    requires CacheSound(t, c) && p in c.nodes && Tweak(c.nodes[p], n)
    ensures CacheSound(t, PutNode(c, p, n))
  {
    hide NodeSound, InDir;
    var c' := PutNode(c, p, n);
    forall q | q in c'.nodes
      ensures NodeSound(t, c', q) && ChildrenSound(c'.nodes, q)
    {
      NodeTweaked(t, c, p, n, q);
      assert ChildrenSound(c.nodes, q);
    }
    forall s | s in t.wild
      ensures InDir(t, c'.nodes, t.wild[s], s)
    {
      InDirTweaked(t, c.nodes, p, n, t.wild[s], s);
    }
  }
}
