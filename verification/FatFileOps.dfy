/** What writing to one file may do to the tree, to the node cache, and to the file's content. */
module FatFileOps {
  import opened Bytes
  import opened FileSpec
  import opened FatFile
  import opened FatEntries
  import opened FatTree
  import opened FatNodes
  import opened FatScan

  /** Only chain `f`, which is no directory and may be new, and the entry in slot `s` may differ. */
  ghost predicate OnlyFile(t: Tree, t': Tree, s: Slot, f: nat) {
    && t'.root == t.root && t'.dirs == t.dirs && t'.wild == t.wild && t.store.Keys <= t'.store.Keys <= t.store.Keys + {f}
    && (forall h :: h in t.store && h != f && h != s.dir ==> t'.store[h] == t.store[h])
    && (forall r :: Inside(t, r) && r != s ==> Inside(t', r) && EntryOf(t', r) == EntryOf(t, r))
  }

  /** The two differ at most in where the file starts and how long it is. */
  predicate SameFile(n: Node, n': Node) {
    n' == n.(first := n'.first, size := n'.size, fileSize := n'.fileSize)
  }

  /** An operation on the file of node `p`, whose chain is or becomes `f`. */
  ghost predicate FileOp(t: Tree, c: Cache, t': Tree, c': Cache, p: Ptr, f: nat) {
    && p in c.nodes && p in c.at && OnlyFile(t, t', c.at[p], f)
    && KeepTrack(t, c, t', c', {}) && StaysSmall(t, c, t', c')
    && c'.at == c.at && c'.holder == c.holder
    && c'.nodes.Keys == c.nodes.Keys && SameFile(c.nodes[p], c'.nodes[p])
    && forall q :: q in c.nodes && q != p ==> c'.nodes[q] == c.nodes[q]
  }

  lemma NoFileOp(t: Tree, c: Cache, p: Ptr, f: nat)
    requires p in c.nodes && p in c.at
    ensures FileOp(t, c, t, c, p, f)
  {
    NothingLost(t, c, {});
  }

  lemma OnlyFileTrans(t: Tree, t1: Tree, t2: Tree, s: Slot, f: nat)
    requires OnlyFile(t, t1, s, f) && OnlyFile(t1, t2, s, f)
    ensures OnlyFile(t, t2, s, f)
  {}

  lemma FileOpTrans(t: Tree, c: Cache, t1: Tree, c1: Cache, t2: Tree, c2: Cache, p: Ptr, f: nat)
    requires FileOp(t, c, t1, c1, p, f) && FileOp(t1, c1, t2, c2, p, f)
    ensures FileOp(t, c, t2, c2, p, f)
  {
    OnlyFileTrans(t, t1, t2, c.at[p], f);
    KeepTrackTrans(t, c, t1, c1, t2, c2, {});
  }

  /** Changing the bytes of a file's chain. */
  lemma ChainOp(t: Tree, c: Cache, p: Ptr, f: nat, b: seq<byte>)
    requires TreeSound(t) && CacheSound(t, c) && p in c.nodes && p in c.at && Inside(t, c.at[p]) && f !in t.dirs
    requires TreeSound(PutChain(t, f, b)) && SameEntries(t, PutChain(t, f, b))
    ensures FileOp(t, c, PutChain(t, f, b), c, p, f)
    ensures CacheSound(PutChain(t, f, b), c)
  {
    TreeStep(t, PutChain(t, f, b), c);
    TrackedAfterStep(t, PutChain(t, f, b), c, p, f);
    SmallAfterStep(t, PutChain(t, f, b), c, p, f);
  }

  lemma EntryOnly(t: Tree, c: Cache, p: Ptr, e: Entry, g: nat, f: nat)
    requires p in c.at && Inside(t, c.at[p])
    ensures OnlyFile(t, FilePut(t, c, p, e, g), c.at[p], f)
  {
    var s, only := c.at[p], if c.at[p] in t.wild then p else 0;
    forall r | Inside(t, r) && r != s
      ensures Inside(FilePut(t, c, p, e, g), r) && EntryOf(FilePut(t, c, p, e, g), r) == EntryOf(t, r)
    {
      SeenAfterPut(t, s, e, g, only, r);
    }
  }

  lemma EntryTracked(t: Tree, c: Cache, p: Ptr, e: Entry, n: Node, f: nat, d: Ptr)
    requires FileStep(t, c, p, e, n, f) && TreeSound(t) && TreeSound(FilePut(t, c, p, e, f)) && Tracked(t, c, d)
    ensures Tracked(FilePut(t, c, p, e, f), PutNode(c, p, n), d)
  {
    hide Complete, NamesAgree, EntriesSound, WildSound, LooseAt, Matches;
    NodeFacts(t, c, p);
    var s, h := c.at[p], HeadOf(t.root, c.nodes[d]);
    if h == s.dir {
      HeadUnique(t, c, d, c.nodes[p].parent);
      assert s !in t.wild;
      NoLongNamesSet(t.store[h], s.pos, e);
    }
    if c.nodes[d].loaded {
      UpdatedComplete(t, c, p, e, n, f, d);
      UpdatedNames(t, c, p, e, n, f, d);
    }
  }

  lemma EntrySmall(t: Tree, c: Cache, p: Ptr, e: Entry, n: Node, f: nat)
    requires FileStep(t, c, p, e, n, f) && TreeSound(t)
    ensures StaysSmall(t, c, FilePut(t, c, p, e, f), PutNode(c, p, n))
  {
    hide Complete, EntriesSound, WildSound, LooseAt, Matches;
    var t', c' := FilePut(t, c, p, e, f), PutNode(c, p, n);
    NodeFacts(t, c, p);
    forall d | d in c.nodes && c.nodes[d].isDir && Complete(t, c, d)
      ensures Complete(t', c', d)
    {
      UpdatedComplete(t, c, p, e, n, f, d);
    }
    forall h | NotLoaded(c', t.root, h)
      ensures NotLoaded(c, t.root, h) && h != c.at[p].dir
    {
      forall d | d in c.nodes && c.nodes[d].isDir && c.nodes[d].loaded
        ensures HeadOf(t.root, c.nodes[d]) != h
      {
        assert c'.nodes[d] == c.nodes[d];
      }
    }
    SmallKept(t, c, t', c');
  }

  /** Changing a file's node and entry together. */
  lemma EntryOp(t: Tree, c: Cache, p: Ptr, e: Entry, n: Node, g: nat, f: nat)
    requires FileStep(t, c, p, e, n, g) && TreeSound(t) && TreeSound(FilePut(t, c, p, e, g))
    ensures FileOp(t, c, FilePut(t, c, p, e, g), PutNode(c, p, n), p, f)
    ensures CacheSound(FilePut(t, c, p, e, g), PutNode(c, p, n))
  {
    hide TreeSound, CacheSound, OnlyFile, Tracked, FilePut, LooseAt, StaysSmall;
    FileUpdated(t, c, p, e, n, g);
    EntryOnly(t, c, p, e, g, f);
    EntrySmall(t, c, p, e, n, g);
    forall d | Tracked(t, c, d)
      ensures Tracked(FilePut(t, c, p, e, g), PutNode(c, p, n), d)
    {
      EntryTracked(t, c, p, e, n, g, d);
    }
  }

  // ---- Content

  /** The bytes of the file of node `n`. */
  ghost function ContentOf(t: Tree, n: Node): seq<byte> {
    if n.first in t.store && n.fileSize <= |t.store[n.first]| then t.store[n.first][..n.fileSize] else []
  }

  /** All the bytes of a node's clusters. */
  ghost function ChainOf(t: Tree, n: Node): seq<byte> { if n.first in t.store then t.store[n.first] else [] }

  ghost function ChainLength(t: Tree, n: Node): nat { if n.first in t.store then |t.store[n.first]| else 0 }

  /** The rest of the file's last cluster is zero bytes. */
  ghost predicate ZeroTail(t: Tree, n: Node) {
    n.first in t.store ==> forall i :: n.fileSize <= i < |t.store[n.first]| ==> t.store[n.first][i] == 0
  }

  /** Every other file keeps its bytes. */
  lemma OtherContents(t: Tree, c: Cache, t': Tree, c': Cache, p: Ptr, f: nat, q: Ptr)
    requires TreeSound(t) && CacheSound(t, c) && FileOp(t, c, t', c', p, f) && q in c.nodes && q != p && !c.nodes[q].isDir
    requires p != ROOT && Inside(t, c.at[p]) && (f == c.nodes[p].first || f !in t.store) && 0 !in t'.store
    ensures ContentOf(t', c'.nodes[q]) == ContentOf(t, c.nodes[q])
    ensures ZeroTail(t, c.nodes[q]) ==> ZeroTail(t', c'.nodes[q])
  {
    NodeFacts(t, c, q);
    if c.nodes[q].first != 0 && c.nodes[q].first == c.nodes[p].first { FirstUnique(t, c, p, q); }
  }

  /** Every file but that of `p` has the bytes it had. */
  ghost predicate OthersKept(t: Tree, nodes: map<Ptr, Node>, t': Tree, nodes': map<Ptr, Node>, p: Ptr) {
    forall q :: q in nodes && q in nodes' && q != p && !nodes[q].isDir ==>
      ContentOf(t', nodes'[q]) == ContentOf(t, nodes[q]) && (ZeroTail(t, nodes[q]) ==> ZeroTail(t', nodes'[q]))
  }

  lemma AllOtherContents(t: Tree, c: Cache, t': Tree, c': Cache, p: Ptr, f: nat)
    requires TreeSound(t) && CacheSound(t, c) && FileOp(t, c, t', c', p, f)
    requires p != ROOT && Inside(t, c.at[p]) && (f == c.nodes[p].first || f !in t.store) && 0 !in t'.store
    ensures OthersKept(t, c.nodes, t', c'.nodes, p)
  {
    forall q | q in c.nodes && q in c'.nodes && q != p && !c.nodes[q].isDir
      ensures ContentOf(t', c'.nodes[q]) == ContentOf(t, c.nodes[q]) && (ZeroTail(t, c.nodes[q]) ==> ZeroTail(t', c'.nodes[q]))
    {
      OtherContents(t, c, t', c', p, f, q);
    }
  }

  lemma OthersSame(t: Tree, v: Cache, t': Tree, v': Cache, p: Ptr)
    ensures FileOp(t, v, t', v', p, if p in v'.nodes then v'.nodes[p].first else 0) ==>
      forall q :: q in v.nodes && q != p ==> q in v'.nodes && v'.nodes[q] == v.nodes[q]
  {}

  lemma NothingChanged(t: Tree, nodes: map<Ptr, Node>, p: Ptr)
    ensures OthersKept(t, nodes, t, nodes, p)
  {}

  /** What lies between the file's end and `offset` is zero bytes. */
  ghost predicate ZeroGap(t: Tree, n: Node, offset: nat) {
    n.first in t.store ==> GapIsZero(t.store[n.first], n.fileSize, offset)
  }

  predicate GapIsZero(b: seq<byte>, size: nat, offset: nat) {
    forall i :: size <= i < |b| && i < offset ==> b[i] == 0
  }

  /** The size `fat32_write` records: 32 bits of the new end, if that is larger. */
  function NewSize(size: nat, end: nat): nat { if end > size then U32(end) else size }

  /** A write into the chain is a write into the file exactly when the gap is zero and the new end fits in 32 bits. */
  lemma ContentWritten(b: seq<byte>, b': seq<byte>, size: nat, offset: nat, bs: seq<byte>)
    requires size <= |b| && size < TWO32 && Written(b, b', offset, bs) && bs != []
    ensures var size' := NewSize(size, offset + |bs|);
      size' <= |b'| &&
      (b'[..size'] == Overwrite(b[..size], offset, bs) <==> offset + |bs| < TWO32 && GapIsZero(b, size, offset))
  {
    var size', over := NewSize(size, offset + |bs|), Overwrite(b[..size], offset, bs);
    if offset + |bs| >= TWO32 {
      assert size' < |over|;
    } else if !GapIsZero(b, size, offset) {
      var i :| size <= i < |b| && i < offset && b[i] != 0;
      assert b'[..size'][i] != over[i];
    } else {
      assert b'[..size'] == over;
    }
  }

  lemma TailKept(b: seq<byte>, b': seq<byte>, size: nat, offset: nat, bs: seq<byte>)
    requires size <= |b| && Written(b, b', offset, bs) && (bs == [] ==> offset == 0) && offset + |bs| < TWO32
    requires forall i :: size <= i < |b| ==> b[i] == 0
    ensures forall i :: NewSize(size, offset + |bs|) <= i < |b'| ==> b'[i] == 0
  {}

  /**
   * What writing `src` at `offset` comes to, for a file that went from node `n0` of tree `t` to node `n1` of
   * tree `t'`: `n` bytes are in, or, if `n` is an error, none. Otherwise its clusters hold what they held, and zero bytes
   * behind that.
   */
  ghost predicate Outcome(t: Tree, n0: Node, t': Tree, n1: Node, offset: nat, src: seq<byte>, n: int) {
    && (n == ERR_NOSPACE || 0 < n <= |src|)
    && Written(ChainOf(t, n0), ChainOf(t', n1), if n > 0 then offset else 0, src[..if n > 0 then n else 0])
    && (n == ERR_NOSPACE ==> ContentOf(t', n1) == ContentOf(t, n0))
    && (n > 0 ==> (ContentOf(t', n1) == Overwrite(ContentOf(t, n0), offset, src[..n]) <==>
                   offset + n < TWO32 && ZeroGap(t, n0, offset)))
    && (ZeroTail(t, n0) && (n > 0 ==> offset + n < TWO32) ==> ZeroTail(t', n1))
  }

  /** The chain before a write: the file's own, or a new one of zero bytes. */
  ghost predicate ChainBefore(t: Tree, n0: Node, first: nat, b: seq<byte>) {
    && n0.fileSize <= |b| && n0.fileSize < TWO32
    && if n0.first in t.store then n0.first == first && b == t.store[first]
       else n0.fileSize == 0 && forall i :: 0 <= i < |b| ==> b[i] == 0
  }

  lemma FromNothing(b: seq<byte>, b': seq<byte>, offset: nat, bs: seq<byte>)
    requires Written(b, b', offset, bs) && forall i :: 0 <= i < |b| ==> b[i] == 0
    ensures Written([], b', offset, bs)
  {}

  lemma WriteOutcome(t: Tree, n0: Node, b: seq<byte>, t': Tree, n1: Node, offset: nat, src: seq<byte>, written: nat)
    requires n1.first in t'.store && ChainBefore(t, n0, n1.first, b) && written <= |src|
    requires Written(b, t'.store[n1.first], if written > 0 then offset else 0, src[..written])
    requires SizeStep(n0, n1, offset, if written > 0 then written else ERR_NOSPACE)
    ensures Outcome(t, n0, t', n1, offset, src, if written > 0 then written else ERR_NOSPACE)
  {
    var b' := t'.store[n1.first];
    if n0.first !in t.store { FromNothing(b, b', if written > 0 then offset else 0, src[..written]); }
    assert ContentOf(t, n0) == b[..n0.fileSize];
    if written > 0 {
      ContentWritten(b, b', n0.fileSize, offset, src[..written]);
      if ZeroTail(t, n0) && offset + written < TWO32 { TailKept(b, b', n0.fileSize, offset, src[..written]); }
    } else {
      assert b'[..n0.fileSize] == b[..n0.fileSize];
    }
  }

  /** The recorded sizes after `n` bytes went in at `offset`, or none. */
  predicate SizeStep(n0: Node, n1: Node, offset: nat, n: int) {
    && n1.fileSize == (if n > 0 then NewSize(n0.fileSize, offset + n) else n0.fileSize)
    && n1.size == (if n > 0 && offset + n > n0.fileSize then n1.fileSize else n0.size)
  }

  /** The first cluster does not matter to it. */
  lemma SizeStepOf(n0: Node, first: nat, n1: Node, offset: nat, n: int)
    requires SizeStep(n0.(first := first), n1, offset, n)
    ensures SizeStep(n0, n1, offset, n)
  {}

  lemma NothingWritten(t: Tree, n: Node, offset: nat, src: seq<byte>)
    ensures Outcome(t, n, t, n, offset, src, ERR_NOSPACE) && SizeStep(n, n, offset, ERR_NOSPACE)
  {}

  // ---- Giving a file its first cluster

  /** A scan finds the entry in slot `s`, and it refers to no chain yet. */
  ghost predicate ShownEmpty(t: Tree, s: Slot) { Seen(t, s) && FirstOf(EntryOf(t, s)) == 0 }

  lemma ChainAdded(t: Tree, v: Cache, p: Ptr, c: nat, b: seq<byte>)
    requires TreeSound(t) && CacheSound(t, v) && p in v.nodes && p in v.at && Inside(t, v.at[p]) && c !in t.store && c != 0
    ensures TreeSound(PutChain(t, c, b)) && Unreferenced(PutChain(t, c, b), c) && c !in t.dirs
    ensures CacheSound(PutChain(t, c, b), v) && FileOp(t, v, PutChain(t, c, b), v, p, c)
    ensures AllReferred(t, 0) ==> AllReferred(PutChain(t, c, b), c)
    ensures ShownEmpty(PutChain(t, c, b), v.at[p]) <==> ShownEmpty(t, v.at[p])
  {
    FileAdded(t, c, b);
    ChainOp(t, v, p, c, b);
    if AllReferred(t, 0) { ReferredSame(t, PutChain(t, c, b), 0, c); }
  }

  /** The node's new chain may go into its entry. */
  lemma FirstFits(t: Tree, v: Cache, p: Ptr, c: nat)
    requires TreeSound(t) && CacheSound(t, v) && p in v.nodes && !v.nodes[p].isDir && v.nodes[p].parent in v.nodes
    requires v.nodes[p].first == 0
    requires Unreferenced(t, c) && c in t.store && c !in t.dirs && c < TWO32 && forall q :: q in v.nodes ==> v.nodes[q].first != c
    ensures p in v.at && Inside(t, v.at[p])
    ensures var e := WithFirst(EntryOf(t, v.at[p]), c);
      && TreeSound(FilePut(t, v, p, e, c)) && FileStep(t, v, p, e, v.nodes[p].(first := c), c)
      && FirstOf(e) == c && Shows(e) == Shows(EntryOf(t, v.at[p]))
  {
    NodeFacts(t, v, p);
    var s := v.at[p];
    WithFirstReads(EntryOf(t, s), c);
    EntryPut(t, s, WithFirst(EntryOf(t, s), c), c, if s in t.wild then p else 0);
  }

  lemma FirstRecorded(t: Tree, v: Cache, t1: Tree, p: Ptr, c: nat)
    requires TreeSound(t) && CacheSound(t, v) && p in v.nodes && !v.nodes[p].isDir && v.nodes[p].parent in v.nodes
    requires v.nodes[p].first == 0
    requires TreeSound(t1) && CacheSound(t1, v) && FileOp(t, v, t1, v, p, c) && Unreferenced(t1, c)
    requires c in t1.store && c !in t.store && c !in t1.dirs && c < TWO32
    ensures p in v.at && Inside(t1, v.at[p])
    ensures var t2 := FilePut(t1, v, p, WithFirst(EntryOf(t1, v.at[p]), c), c);
      var v2 := PutNode(v, p, v.nodes[p].(first := c));
      && TreeSound(t2) && CacheSound(t2, v2) && FileOp(t, v, t2, v2, p, c)
      && c in t2.store && t2.store[c] == t1.store[c]
      && (AllReferred(t1, c) ==> (AllReferred(t2, 0) <==> ShownEmpty(t1, v.at[p])))
  {
    hide AllReferred, FileOp, FileStep, LooseAt, Matches, EntriesSound, WildSound, CacheSound, PutBytes, WithFirst;
    forall q | q in v.nodes
      ensures v.nodes[q].first != c
    {
      NodeFacts(t, v, q);
    }
    FirstFits(t1, v, p, c);
    var s, e := v.at[p], WithFirst(EntryOf(t1, v.at[p]), c);
    EntryOp(t1, v, p, e, v.nodes[p].(first := c), c, c);
    FileOpTrans(t, v, t1, v, FilePut(t1, v, p, e, c), PutNode(v, p, v.nodes[p].(first := c)), p, c);
    FileBytesKept(t1, v, p, e, c);
    if AllReferred(t1, c) { ReferredAfterPut(t1, s, e, c, if s in t1.wild then p else 0); }
  }

  lemma FileBytesKept(t: Tree, v: Cache, p: Ptr, e: Entry, c: nat)
    requires TreeSound(t) && p in v.at && Inside(t, v.at[p]) && c in t.store && c !in t.dirs
    ensures c != t.root && c in FilePut(t, v, p, e, c).store && FilePut(t, v, p, e, c).store[c] == t.store[c]
  {}

  // ---- Writing its bytes, and recording its size

  lemma BytesWritten(t: Tree, v: Cache, p: Ptr, f: nat, b: seq<byte>)
    requires TreeSound(t) && CacheSound(t, v) && p in v.nodes && !v.nodes[p].isDir && f == v.nodes[p].first != 0
    requires p in v.at && Inside(t, v.at[p]) && f in t.store && |b| >= |t.store[f]|
    ensures var t' := PutChain(t, f, b); TreeSound(t') && CacheSound(t', v) && FileOp(t, v, t', v, p, f)
    ensures AllReferred(PutChain(t, f, b), 0) <==> AllReferred(t, 0)
  {
    NodeFacts(t, v, p);
    FileWritten(t, f, b);
    ChainOp(t, v, p, f, b);
    ReferredIff(t, PutChain(t, f, b));
  }

  lemma SizeFits(t: Tree, v: Cache, p: Ptr, size: nat)
    requires TreeSound(t) && CacheSound(t, v) && p in v.nodes && !v.nodes[p].isDir && v.nodes[p].parent in v.nodes
    requires v.nodes[p].first in t.store && size < TWO32 && size <= |t.store[v.nodes[p].first]|
    ensures p in v.at && Inside(t, v.at[p])
    ensures var e := WithSize(EntryOf(t, v.at[p]), size);
      TreeSound(FilePut(t, v, p, e, 0)) && FileStep(t, v, p, e, v.nodes[p].(size := size, fileSize := size), 0) &&
      FirstOf(e) == FirstOf(EntryOf(t, v.at[p])) && Shows(e) == Shows(EntryOf(t, v.at[p]))
  {
    NodeFacts(t, v, p);
    var s := v.at[p];
    WithSizeReads(EntryOf(t, s), size);
    EntryPut(t, s, WithSize(EntryOf(t, s), size), 0, if s in t.wild then p else 0);
  }

  lemma SizeRecorded(t: Tree, v: Cache, p: Ptr, size: nat)
    requires TreeSound(t) && CacheSound(t, v) && p in v.nodes && !v.nodes[p].isDir && v.nodes[p].parent in v.nodes
    requires v.nodes[p].first in t.store && size < TWO32 && size <= |t.store[v.nodes[p].first]|
    ensures p in v.at && Inside(t, v.at[p])
    ensures var t2 := FilePut(t, v, p, WithSize(EntryOf(t, v.at[p]), size), 0);
      var v2 := PutNode(v, p, v.nodes[p].(size := size, fileSize := size));
      && TreeSound(t2) && CacheSound(t2, v2) && FileOp(t, v, t2, v2, p, v.nodes[p].first)
      && v.nodes[p].first in t2.store && t2.store[v.nodes[p].first] == t.store[v.nodes[p].first]
      && (AllReferred(t2, 0) <==> AllReferred(t, 0))
  {
    SizeFits(t, v, p, size);
    NodeFacts(t, v, p);
    hide CacheSound, TreeSound, AllReferred, FileOp, FileStep, LooseAt, Matches;
    var e := WithSize(EntryOf(t, v.at[p]), size);
    EntryOp(t, v, p, e, v.nodes[p].(size := size, fileSize := size), 0, v.nodes[p].first);
    ReferredAfterEdit(t, v.at[p], e, if v.at[p] in t.wild then p else 0);
  }
}
