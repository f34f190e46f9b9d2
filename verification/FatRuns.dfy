/** Runs of operations on a FAT32 volume, and what they keep. */
module FatRuns {
  import opened Bytes
  import opened FileSpec
  import opened FatTable
  import opened FatChains
  import opened FatNames
  import opened FatTree
  import opened FatNodes
  import opened FatScan
  import opened FatFileOps
  import opened FatDriver
  import opened FatDirs
  import opened FatCreate
  import opened FatUnlink

  /** An operation, on nodes the client holds. Before a creation the client may ask `childcount` whether there is room. */
  datatype Op =
    | ReadOp(p: Ptr, offset: nat, count: nat)
    | WriteOp(p: Ptr, offset: nat, src: seq<byte>)
    | LookupOp(d: Ptr, name: seq<byte>)
    | CreateOp(d: Ptr, name: seq<byte>, isDir: bool, checked: bool)
    | UnlinkOp(q: Ptr)

  /** What a call returned: a number, the bytes read, and the node found or made. */
  datatype Reply = Reply(n: int, out: seq<byte>, node: Ptr)

  /** Offsets in 64 bits, and names that are C strings. */
  predicate OpFits(op: Op) {
    match op
    case WriteOp(_, offset, src) => offset + |src| < TWO64
    case CreateOp(_, name, _, _) => 0 !in name
    case _ => true
  }

  /** The nodes that an operation may let go of, or a directory whose listing it may spoil. */
  function LostTo(op: Op): set<Ptr> {
    match op
    case CreateOp(d, name, _, checked) => if checked && KeepsName(name) && Showable(name) then {} else {d}
    case UnlinkOp(q) => {q}
    case _ => {}
  }

  function Lost(ops: seq<Op>): set<Ptr> { if ops == [] then {} else LostTo(ops[0]) + Lost(ops[1..]) }

  /** Creations are checked, and their names make entries that show. */
  predicate Polite(op: Op) { op.CreateOp? ==> op.checked && Showable(op.name) }

  predicate AllPolite(ops: seq<Op>) { forall i :: 0 <= i < |ops| ==> Polite(ops[i]) }

  // ---- No chain is lost

  /** No chain is lost, every entry the driver made shows, and every directory fits the cache. */
  ghost predicate Lossless(t: Tree, c: Cache) { AllReferred(t, 0) && Tidy(t) && SmallDirs(t, c) }

  /** A volume just mounted is in this state if its directories show at most 128 entries each and it has no lost chains. */
  lemma MountedLossless(t: Tree, c: Cache)
    requires c.nodes.Keys == {ROOT} && !c.nodes[ROOT].loaded && t.wild == map[] && AllReferred(t, 0)
    ensures Lossless(t, c) <==> forall h :: h in t.dirs ==> FitsCache(t, h)
  {
    forall h
      ensures NotLoaded(c, t.root, h)
    {}
  }

  ghost predicate KeepsLossless(t: Tree, c: Cache, t': Tree, c': Cache) { Lossless(t, c) ==> Lossless(t', c') }

  // ---- The files as their clients see them

  /** The bytes of files by their nodes. */
  type Files = map<Ptr, seq<byte>>

  /** The files after an operation that returned `r`: a write of `n` bytes overwrites, up to where 32 bits no longer count the size. */
  function FilesAfter(m: Files, op: Op, r: Reply): Files {
    match op
    case WriteOp(p, offset, src) =>
      if p in m && 0 < r.n <= |src| then
        if offset + r.n < TWO32 then m[p := Overwrite(m[p], offset, src[..r.n])] else m - {p}
      else m
    case CreateOp(_, _, isDir, _) => if r.node != NULL && !isDir then m[r.node := []] else m
    case UnlinkOp(q) => if r.n == 0 then m - {q} else m
    case _ => m
  }

  /** What the operation may return. */
  predicate RightReply(m: Files, op: Op, r: Reply) {
    match op
    case ReadOp(p, offset, count) => p in m ==> r.n == |r.out| && r.out == Slice(m[p], offset, count)
    case WriteOp(_, _, src) => r.n <= |src|
    case CreateOp(_, _, _, _) => r.node !in m
    case _ => true
  }

  /** The replies of a run are those of the files it started with. */
  predicate RightReplies(m: Files, ops: seq<Op>, rs: seq<Reply>)
    decreases |ops|
  {
    |rs| == |ops| && (ops != [] ==> RightReply(m, ops[0], rs[0]) && RightReplies(FilesAfter(m, ops[0], rs[0]), ops[1..], rs[1..]))
  }

  function FilesAtEnd(m: Files, ops: seq<Op>, rs: seq<Reply>): Files
    requires |rs| == |ops|
    decreases |ops|
  {
    if ops == [] then m else FilesAtEnd(FilesAfter(m, ops[0], rs[0]), ops[1..], rs[1..])
  }

  /** The files of `m` are there, with these bytes, and zero bytes beyond their ends. */
  ghost predicate Holds(t: Tree, nodes: map<Ptr, Node>, m: Files) {
    forall p :: p in m ==> p in nodes && HoldsOne(t, nodes[p], m[p])
  }

  ghost predicate HoldsOne(t: Tree, n: Node, content: seq<byte>) { !n.isDir && ContentOf(t, n) == content && ZeroTail(t, n) }

  lemma HoldsGrown(t: Tree, t': Tree, c: Cache, nodes': map<Ptr, Node>, d: Ptr, m: Files)
    requires TreeSound(t) && CacheSound(t, c) && FilesKept(t, t') && 0 !in t'.store && Grew(c.nodes, nodes', d) && Holds(t, c.nodes, m)
    ensures Holds(t', nodes', m)
  {
    hide CacheSound;
    forall p | p in m
      ensures p in nodes' && HoldsOne(t', nodes'[p], m[p])
    {
      NodeFacts(t, c, p);
      assert HoldsOne(t, c.nodes[p], m[p]);
    }
  }

  lemma HoldsWritten(t: Tree, nodes: map<Ptr, Node>, t': Tree, nodes': map<Ptr, Node>, m: Files, op: Op, n: int)
    requires op.WriteOp? && op.p in nodes && nodes'.Keys == nodes.Keys && nodes'[op.p].isDir == nodes[op.p].isDir
    requires forall q :: q in nodes && q != op.p ==> nodes'[q] == nodes[q]
    requires OthersKept(t, nodes, t', nodes', op.p) && Holds(t, nodes, m)
    requires nodes[op.p].isDir || op.src == [] ==> n <= 0 && t' == t && nodes' == nodes
    requires !nodes[op.p].isDir && op.src != [] ==> Outcome(t, nodes[op.p], t', nodes'[op.p], op.offset, op.src, n)
    ensures n <= |op.src| && Holds(t', nodes', FilesAfter(m, op, Reply(n, [], NULL)))
  {
    hide ContentOf, Overwrite, ZeroTail;
    var m' := FilesAfter(m, op, Reply(n, [], NULL));
    if op.p in m && n > 0 && op.offset + n < TWO32 { TailClosesGap(t, nodes[op.p], op.offset); }
    forall q | q in m'
      ensures q in nodes' && HoldsOne(t', nodes'[q], m'[q])
    {
      assert q in m && HoldsOne(t, nodes[q], m[q]);
    }
  }

  lemma TailClosesGap(t: Tree, n: Node, offset: nat)
    ensures ZeroTail(t, n) ==> ZeroGap(t, n, offset)
  {}

  lemma HoldsUnlinked(t: Tree, v: Cache, l: Ledger, t': Tree, v': Cache, l': Ledger, q: Ptr, m: Files)
    requires TreeSound(t) && CacheSound(t, v) && Unlinked(t, v, l, t', v', l', q) && Holds(t, v.nodes, m) && 0 !in t'.store
    ensures Holds(t', v'.nodes, m - {q})
  {
    hide CacheSound, KeepTrack, AllReferred, LosesNone, UnlinkTree;
    forall p | p in m - {q}
      ensures p in v'.nodes && HoldsOne(t', v'.nodes[p], m[p])
    {
      NodeFacts(t, v, p);
      assert HoldsOne(t, v.nodes[p], m[p]);
      if v.nodes[p].first != 0 && v.nodes[p].first == v.nodes[q].first { FirstUnique(t, v, p, q); }
    }
  }

  lemma HoldsMade(t: Tree, nodes: map<Ptr, Node>, m: Files, d: Ptr, p: Ptr, name: seq<byte>, isDir: bool)
    requires Holds(t, nodes, m) && Created(nodes, d, p, name, isDir) && 0 !in t.store
    ensures Holds(t, nodes, if isDir then m else m[p := []])
  {}

  lemma WrittenInStep(nodes: map<Ptr, Node>, nodes': map<Ptr, Node>, p: Ptr, offset: nat, n: int)
    requires p in nodes && nodes'.Keys == nodes.Keys && (nodes' == nodes || SizeStep(nodes[p], nodes'[p], offset, n))
    requires forall q :: q in nodes && q != p ==> nodes'[q] == nodes[q]
    ensures AllInStep(nodes) ==> AllInStep(nodes')
  {}

  lemma UnlinkedInStep(t: Tree, v: Cache, l: Ledger, t': Tree, v': Cache, l': Ledger, q: Ptr)
    requires Unlinked(t, v, l, t', v', l', q)
    ensures AllInStep(v.nodes) ==> AllInStep(v'.nodes)
  {}

  // ---- One operation

  /** Why nothing was created: no directory, no room in it, the name taken, or too few clusters. */
  ghost predicate Refused(dr: Driver, op: Op)
    requires op.CreateOp?
    reads dr, dr.vol
  {
    op.d in dr.nodes ==>
      || !dr.nodes[op.d].isDir || (op.checked && |dr.nodes[op.d].children| >= MAX_CHILDREN)
      || NameTaken(dr.nodes, op.d, op.name) || NoSpace(dr, op.d, op.isDir)
  }

  /** `fat32_create`, if the client wishes only in a directory that lists fewer than 128 children. */
  method CreateIn(dr: Driver, op: Op) returns (p: Ptr)
    requires dr.Valid() && op.CreateOp? && op.d in dr.nodes && 0 !in op.name
    modifies dr`nodes, dr`nextPtr, dr`at, dr`holder, dr`l, dr`tree, dr.vol`disk, dr.vol.buf
    ensures dr.Valid() && dr.vol.Untouched() == old(dr.vol.Untouched())
    ensures KeepTrack(old(dr.tree), old(dr.View()), dr.tree, dr.View(), LostTo(op))
    ensures Polite(op) ==> KeepsLossless(old(dr.tree), old(dr.View()), dr.tree, dr.View())
    ensures Grew(old(dr.nodes), dr.nodes, op.d) && FilesKept(old(dr.tree), dr.tree)
    ensures p != NULL ==> p !in old(dr.nodes) && Created(dr.nodes, op.d, p, op.name, op.isDir)
    ensures p != NULL && op.isDir ==> Tracked(dr.tree, dr.View(), p)
    ensures p == NULL ==> Refused(dr, op)
  {
    hide Driver.Valid, KeepTrack, AllReferred, Tracked, TreeSound, CacheSound, Showable, KeepsName, CreateOutcome,
         LongNamesFit, Scan, Listed,
         OthersAgree, PlacesKept, Grew, SmallDirs, FilesKept, Created, Tidy, NameTaken, NoSpace, NameWasFree, SpaceDecides;
    ghost var t, v := dr.tree, dr.View();
    NothingLost(t, v, {});
    NothingNew(t);
    NothingLoaded(t, v, op.d);
    if op.checked && dr.nodes[op.d].isDir {
      Load(dr, op.d);
      GrewHead(v.nodes, dr.nodes, op.d);
      if |dr.nodes[op.d].children| >= MAX_CHILDREN {
        NothingCreated(t, dr.View(), dr.l, op.d, op.name, op.isDir);
        OutcomeKeeps(t, v, dr.View(), dr.l, t, dr.View(), dr.l, op, NULL);
        return NULL;
      }
    }
    ghost var v1, l := dr.View(), dr.l;
    p := Create(dr, op.d, op.name, op.isDir);
    OutcomeKeeps(t, v, v1, l, dr.tree, dr.View(), dr.l, op, p);
    GrewOn(v.nodes, v1.nodes, dr.nodes, op.d);
    GrewHead(v1.nodes, dr.nodes, op.d);
    GrewHead(v.nodes, v1.nodes, op.d);
  }

  lemma GrewOn(n0: map<Ptr, Node>, n1: map<Ptr, Node>, n2: map<Ptr, Node>, d: Ptr)
    requires Grew(n0, n1, d) && Grew(n1, n2, d)
    ensures Grew(n0, n2, d)
  {}

  /** A creation that the client checked loses track of no directory if the name reads back as itself, and no chain if its entry shows. */
  lemma OutcomeKeeps(t: Tree, v: Cache, v1: Cache, l: Ledger, t': Tree, v': Cache, l': Ledger, op: Op, p: Ptr)
    requires op.CreateOp? && KeepTrack(t, v, t, v1, {}) && StaysSmall(t, v, t, v1)
    requires CreateOutcome(t, v1, l, t', v', l', op.d, p, op.name, op.isDir)
    requires p != NULL && op.checked ==> op.d in v'.nodes && p in v'.nodes[op.d].children
    ensures KeepTrack(t, v, t', v', LostTo(op)) && (Polite(op) ==> KeepsLossless(t, v, t', v'))
    ensures p != NULL ==> p !in v1.nodes && Created(v'.nodes, op.d, p, op.name, op.isDir) && (op.isDir ==> Tracked(t', v', p))
    ensures FilesKept(t, t')
  {
    hide KeepsName, Showable, AllReferred, Tracked, FilesKept, CreateLedger, Created, SmallDirs, Tidy;
    ghost var lost := if p == NULL then {} else LostBy(op.d, Agrees(v'.nodes, op.d, p, op.name));
    KeepTrackTrans(t, v, t, v1, t', v', lost);
  }

  lemma WriteKeeps(t: Tree, v: Cache, t': Tree, v': Cache, p: Ptr)
    requires CacheSound(t, v) && p in v.nodes && v.nodes[p].parent in v.nodes && StaysSmall(t, v, t', v') && t'.wild == t.wild
    requires AllReferred(t, 0) && p in v.at && v.at[p] !in t.wild ==> AllReferred(t', 0)
    requires p != ROOT
    ensures KeepsLossless(t, v, t', v')
  {
    assert NodeSound(t, v, p);
  }

  lemma UnlinkKeeps(t: Tree, v: Cache, l: Ledger, t': Tree, v': Cache, l': Ledger, q: Ptr)
    requires CacheSound(t, v) && Unlinked(t, v, l, t', v', l', q) && q != ROOT && StaysSmall(t, v, t', v')
    requires NothingMissing(t, v, q) ==> LosesNone(t, v.at[q], v.nodes[q].first)
    ensures KeepsLossless(t, v, t', v')
  {
    hide AllReferred, KeepTrack, OtherFilesKept, LosesNone, Complete;
    if Lossless(t, v) {
      assert NodeSound(t, v, q);
      forall s
        ensures s !in t'.wild
      {}
    }
  }

  /** What an operation that returned `r` keeps, of a volume that holds the files `m`. */
  ghost predicate StepKept(t: Tree, v: Cache, t': Tree, v': Cache, m: Files, op: Op, r: Reply) {
    && KeepTrack(t, v, t', v', LostTo(op)) && (Polite(op) ==> KeepsLossless(t, v, t', v'))
    && RightReply(m, op, r) && Holds(t', v'.nodes, FilesAfter(m, op, r)) && (AllInStep(v.nodes) ==> AllInStep(v'.nodes))
    && (op.CreateOp? && op.isDir && r.node != NULL ==> Tracked(t', v', r.node))
  }

  lemma NothingDone(t: Tree, v: Cache, m: Files, op: Op, r: Reply)
    requires Holds(t, v.nodes, m) && RightReply(m, op, r) && r.node == NULL && (op.WriteOp? || op.UnlinkOp? ==> r.n < 0)
    ensures StepKept(t, v, t, v, m, op, r)
  {
    NothingLost(t, v, LostTo(op));
  }

  method ReadStep(dr: Driver, op: Op, ghost m: Files) returns (r: Reply)
    requires dr.Valid() && op.ReadOp? && op.p in dr.nodes && Holds(dr.tree, dr.nodes, m)
    modifies dr.vol.buf
    ensures dr.Valid() && StepKept(dr.tree, dr.View(), dr.tree, dr.View(), m, op, r)
    ensures dr.nodes[op.p].isDir ==> r == Reply(ERR_ISDIR, [], NULL)
    ensures !dr.nodes[op.p].isDir ==> r.n == |r.out| && r.out == Slice(dr.Content(op.p), op.offset, op.count)
  {
    hide StepKept, Holds, Slice, HoldsOne;
    HeldNode(dr.tree, dr.nodes, m, op.p);
    HeldContent(dr, m, op.p);
    var n, out := dr.Read(op.p, op.offset, op.count);
    r := Reply(n, out, NULL);
    NothingDone(dr.tree, dr.View(), m, op, r);
  }

  lemma HeldContent(dr: Driver, m: Files, p: Ptr)
    requires Holds(dr.tree, dr.nodes, m)
    ensures p in m ==> p in dr.nodes && !dr.nodes[p].isDir && dr.Content(p) == m[p]
  {}

  method WriteStep(dr: Driver, op: Op, ghost m: Files) returns (r: Reply)
    requires dr.Valid() && op.WriteOp? && OpFits(op) && Holds(dr.tree, dr.nodes, m)
    requires op.p in dr.nodes && op.p != ROOT && dr.nodes[op.p].parent in dr.nodes
    modifies dr`nodes, dr`l, dr`tree, dr.vol`disk, dr.vol.buf
    ensures dr.Valid() && dr.vol.Untouched() == old(dr.vol.Untouched())
    ensures StepKept(old(dr.tree), old(dr.View()), dr.tree, dr.View(), m, op, r)
    ensures r.n == if old(dr.nodes)[op.p].isDir then ERR_ISDIR else WriteCount(old(dr.Room(op.p)), op.offset, |op.src|)
  {
    hide Driver.Valid, KeepTrack, AllReferred, TreeSound, CacheSound, Holds, SmallDirs, Outcome, OthersKept, Driver.Room, FileOp,
         SizeStep, ShownEmpty, LedgerStep;
    ghost var t, v := dr.tree, dr.View();
    SoundParts(dr);
    var n := dr.Write(op.p, op.offset, op.src);
    WriteKeeps(t, v, dr.tree, dr.View(), op.p);
    OthersSame(t, v, dr.tree, dr.View(), op.p);
    HoldsWritten(t, v.nodes, dr.tree, dr.nodes, m, op, n);
    WrittenInStep(v.nodes, dr.nodes, op.p, op.offset, n);
    r := Reply(n, [], NULL);
  }

  method LookupStep(dr: Driver, op: Op, ghost m: Files) returns (r: Reply)
    requires dr.Valid() && op.LookupOp? && op.d in dr.nodes && Holds(dr.tree, dr.nodes, m)
    modifies dr`nodes, dr`nextPtr, dr`at, dr`holder, dr.vol.buf
    ensures dr.Valid() && StepKept(dr.tree, old(dr.View()), dr.tree, dr.View(), m, op, r)
    ensures op.d in dr.nodes &&
      if old(dr.nodes)[op.d].isDir then FirstNamed(dr.nodes, dr.nodes[op.d].children, op.name, r.node) else r.node == NULL
  {
    hide Driver.Valid, KeepTrack, AllReferred, TreeSound, CacheSound, Holds, SmallDirs, Grew, FilesKept, Listed, Scan,
         LongNamesFit, OthersAgree,
         PlacesKept, FirstNamed;
    ghost var t, v := dr.tree, dr.View();
    SoundParts(dr);
    NothingNew(t);
    ZeroIsNone(t);
    var p := Lookup(dr, op.d, op.name);
    HoldsGrown(t, t, v, dr.nodes, op.d, m);
    GrewInStep(v.nodes, dr.nodes, op.d);
    r := Reply(0, [], p);
  }

  method CreationStep(dr: Driver, op: Op, ghost m: Files) returns (r: Reply)
    requires dr.Valid() && op.CreateOp? && op.d in dr.nodes && 0 !in op.name && Holds(dr.tree, dr.nodes, m)
    modifies dr`nodes, dr`nextPtr, dr`at, dr`holder, dr`l, dr`tree, dr.vol`disk, dr.vol.buf
    ensures dr.Valid() && dr.vol.Untouched() == old(dr.vol.Untouched())
    ensures StepKept(old(dr.tree), old(dr.View()), dr.tree, dr.View(), m, op, r)
    ensures r.node == NULL ==> Refused(dr, op)
    ensures r.node != NULL ==> r.node !in old(dr.nodes) && Created(dr.nodes, op.d, r.node, op.name, op.isDir)
  {
    hide Driver.Valid, KeepTrack, TreeSound, CacheSound, Tracked, Holds, Grew, FilesKept, Created, Refused, KeepsLossless, Polite, LostTo;
    ghost var t, v := dr.tree, dr.View();
    SoundParts(dr);
    NullHoldsNothing(t, v, m);
    var p := CreateIn(dr, op);
    SoundParts(dr);
    ZeroIsNone(dr.tree);
    HoldsGrown(t, dr.tree, v, dr.nodes, op.d, m);
    GrewInStep(v.nodes, dr.nodes, op.d);
    HeldNode(t, v.nodes, m, p);
    if p != NULL { HoldsMade(dr.tree, dr.nodes, m, op.d, p, op.name, op.isDir); }
    r := Reply(0, [], p);
  }

  method UnlinkStep(dr: Driver, op: Op, ghost m: Files) returns (r: Reply)
    requires dr.Valid() && op.UnlinkOp? && Holds(dr.tree, dr.nodes, m)
    requires op.q in dr.nodes && op.q != ROOT && dr.nodes[op.q].parent in dr.nodes
    modifies dr`nodes, dr`nextPtr, dr`at, dr`holder, dr`l, dr`tree, dr.vol`disk, dr.vol.buf
    ensures dr.Valid() && dr.vol.Untouched() == old(dr.vol.Untouched())
    ensures StepKept(old(dr.tree), old(dr.View()), dr.tree, dr.View(), m, op, r)
    ensures r.n == if old(HasMembers(dr, op.q)) then ERR_NOEMPTY else 0
    ensures r.n == 0 ==> op.q !in dr.nodes
  {
    hide Driver.Valid, KeepTrack, AllReferred, TreeSound, CacheSound, Unlinked, HasMembers, AllInStep, Holds, SmallDirs, Grew, FilesKept,
         NothingMissing, LosesNone;
    ghost var t, v, l := dr.tree, dr.View(), dr.l;
    SoundParts(dr);
    ZeroIsNone(t);
    NothingNew(t);
    var n := Unlink(dr, op.q);
    SoundParts(dr);
    ZeroIsNone(dr.tree);
    if n == 0 {
      UnlinkKeeps(t, v, l, dr.tree, dr.View(), dr.l, op.q);
      UnlinkTracks(t, v, l, dr.tree, dr.View(), dr.l, op.q);
      HoldsUnlinked(t, v, l, dr.tree, dr.View(), dr.l, op.q, m);
      UnlinkedInStep(t, v, l, dr.tree, dr.View(), dr.l, op.q);
      UnlinkedGone(t, v, l, dr.tree, dr.View(), dr.l, op.q);
    } else {
      HoldsGrown(t, t, v, dr.nodes, op.q, m);
      GrewInStep(v.nodes, dr.nodes, op.q);
      KeepMore(t, v, dr.tree, dr.View(), {op.q});
    }
    r := Reply(n, [], NULL);
  }

  /**
   * One operation. Those on nodes that are no longer there or on the root, and writing to or unlinking a node whose
   * directory is gone, are left out.
   */
  method Step(dr: Driver, op: Op, ghost m: Files) returns (r: Reply)
    requires dr.Valid() && OpFits(op) && Holds(dr.tree, dr.nodes, m)
    modifies dr`nodes, dr`nextPtr, dr`at, dr`holder, dr`l, dr`tree, dr.vol`disk, dr.vol.buf
    ensures dr.Valid() && dr.vol.Untouched() == old(dr.vol.Untouched())
    ensures StepKept(old(dr.tree), old(dr.View()), dr.tree, dr.View(), m, op, r)
    ensures op.CreateOp? && r.node == NULL && op.d in old(dr.nodes) ==> Refused(dr, op)
    ensures op.CreateOp? && r.node != NULL ==> r.node !in old(dr.nodes) && Created(dr.nodes, op.d, r.node, op.name, op.isDir)
    ensures op.ReadOp? && op.p in old(dr.nodes) ==>
      if old(dr.nodes)[op.p].isDir then r == Reply(ERR_ISDIR, [], NULL)
      else r.n == |r.out| && r.out == Slice(old(dr.Content(op.p)), op.offset, op.count)
    ensures op.WriteOp? && op.p in old(dr.nodes) && !old(dr.nodes)[op.p].isDir && old(dr.nodes)[op.p].parent in old(dr.nodes) ==>
      r.n == WriteCount(old(dr.Room(op.p)), op.offset, |op.src|)
    ensures op.LookupOp? && op.d in old(dr.nodes) && old(dr.nodes)[op.d].isDir ==>
      op.d in dr.nodes && FirstNamed(dr.nodes, dr.nodes[op.d].children, op.name, r.node)
    ensures op.UnlinkOp? && op.q in old(dr.nodes) && op.q != ROOT && old(dr.nodes)[op.q].parent in old(dr.nodes) ==>
      r.n == (if old(HasMembers(dr, op.q)) then ERR_NOEMPTY else 0) && (r.n == 0 ==> op.q !in dr.nodes)
  {
    hide Driver.Valid, TreeSound, CacheSound, StepKept, Holds, Refused, Driver.Room, WriteCount, HasMembers, FirstNamed, Slice,
         Created, Driver.Content;
    r := Reply(ERR_INVAL, [], NULL);
    SoundParts(dr);
    RootIsDir(dr.tree, dr.View());
    NullHoldsNothing(dr.tree, dr.View(), m);
    if op.ReadOp? { HeldNode(dr.tree, dr.nodes, m, op.p); }
    if op.ReadOp? ==> op.p !in dr.nodes { NothingDone(dr.tree, dr.View(), m, op, r); }
    match op {
      case ReadOp(p, _, _) => if p in dr.nodes { r := ReadStep(dr, op, m); }
      case WriteOp(p, _, _) => if p in dr.nodes && p != ROOT && dr.nodes[p].parent in dr.nodes { r := WriteStep(dr, op, m); }
      case LookupOp(d, _) => if d in dr.nodes { r := LookupStep(dr, op, m); }
      case CreateOp(d, _, _, _) => if d in dr.nodes { r := CreationStep(dr, op, m); }
      case UnlinkOp(q) => if q in dr.nodes && q != ROOT && dr.nodes[q].parent in dr.nodes { r := UnlinkStep(dr, op, m); }
    }
  }

  lemma RootIsDir(t: Tree, v: Cache)
    requires CacheSound(t, v)
    ensures ROOT in v.nodes && v.nodes[ROOT].isDir
  {
    assert NodeSound(t, v, ROOT);
  }

  lemma NullHoldsNothing(t: Tree, v: Cache, m: Files)
    requires CacheSound(t, v) && Holds(t, v.nodes, m)
    ensures NULL !in m
  {}

  lemma HeldNode(t: Tree, nodes: map<Ptr, Node>, m: Files, p: Ptr)
    requires Holds(t, nodes, m)
    ensures p in m ==> p in nodes && HoldsOne(t, nodes[p], m[p])
  {}

  lemma ZeroIsNone(t: Tree)
    requires TreeSound(t)
    ensures 0 !in t.store
  {}

  lemma KeepMore(t: Tree, v: Cache, t': Tree, v': Cache, lost: set<Ptr>)
    ensures KeepTrack(t, v, t', v', {}) ==> KeepTrack(t, v, t', v', lost)
  {}

  lemma UnlinkedGone(t: Tree, v: Cache, l: Ledger, t': Tree, v': Cache, l': Ledger, q: Ptr)
    requires Unlinked(t, v, l, t', v', l', q)
    ensures q !in v'.nodes
  {}

  lemma UnlinkTracks(t: Tree, v: Cache, l: Ledger, t': Tree, v': Cache, l': Ledger, q: Ptr)
    requires Unlinked(t, v, l, t', v', l', q)
    ensures KeepTrack(t, v, t', v', {q})
  {}

  // ---- Runs

  /**
   * A run of any operations, out-of-space runs included. Every file of `m` reads as its own writes left it, whatever
   * else was read, written, made or unlinked in between. Directories whose children agreed with a scan still do, and
   * new ones too, unless they were unlinked or given an entry that does not read back. If no chain was lost and all
   * directories fitted the cache, and creations were checked and made entries that show, that is so at the end.
   */
  method Run(dr: Driver, ops: seq<Op>, ghost m: Files) returns (rs: seq<Reply>, made: set<Ptr>)
    requires dr.Valid() && (forall i :: 0 <= i < |ops| ==> OpFits(ops[i])) && Holds(dr.tree, dr.nodes, m)
    modifies dr`nodes, dr`nextPtr, dr`at, dr`holder, dr`l, dr`tree, dr.vol`disk, dr.vol.buf
    ensures dr.Valid() && dr.vol.Untouched() == old(dr.vol.Untouched())
    ensures RightReplies(m, ops, rs) && Holds(dr.tree, dr.nodes, FilesAtEnd(m, ops, rs))
    ensures KeepTrack(old(dr.tree), old(dr.View()), dr.tree, dr.View(), Lost(ops))
    ensures forall i :: 0 <= i < |ops| && ops[i].CreateOp? && ops[i].isDir && rs[i].node != NULL ==> rs[i].node in made
    ensures forall d :: d in made && d !in Lost(ops) ==> Tracked(dr.tree, dr.View(), d)
    ensures AllPolite(ops) && old(Lossless(dr.tree, dr.View())) ==> Lossless(dr.tree, dr.View())
    ensures old(AllInStep(dr.nodes)) ==> AllInStep(dr.nodes)
    decreases |ops|
  {
    hide Driver.Valid, KeepTrack, AllReferred, Tracked, OpFits, Holds, RightReply, FilesAfter, Polite, Lossless, LostTo,
         StepKept, Refused, AllInStep, HasMembers, FirstNamed, WriteCount, Slice, Created,
         Driver.Room, Driver.Content;
    if ops == [] {
      NothingLost(dr.tree, dr.View(), {});
      return [], {};
    }
    ghost var t, v := dr.tree, dr.View();
    var r := Step(dr, ops[0], m);
    StepFacts(t, v, dr.tree, dr.View(), m, ops[0], r);
    ghost var t1, v1 := dr.tree, dr.View();
    var rest;
    rest, made := Run(dr, ops[1..], FilesAfter(m, ops[0], r));
    rs := [r] + rest;
    assert rs[1..] == rest;
    KeepTrackOn(t, v, t1, v1, dr.tree, dr.View(), LostTo(ops[0]), Lost(ops[1..]));
    if ops[0].CreateOp? && ops[0].isDir && r.node != NULL {
      if r.node !in Lost(ops) { StillTracked(t1, v1, dr.tree, dr.View(), Lost(ops[1..]), r.node); }
      made := made + {r.node};
    }
  }

  lemma StepFacts(t: Tree, v: Cache, t': Tree, v': Cache, m: Files, op: Op, r: Reply)
    requires StepKept(t, v, t', v', m, op, r)
    ensures KeepTrack(t, v, t', v', LostTo(op)) && (Polite(op) && Lossless(t, v) ==> Lossless(t', v'))
    ensures RightReply(m, op, r) && Holds(t', v'.nodes, FilesAfter(m, op, r))
    ensures op.CreateOp? && op.isDir && r.node != NULL ==> Tracked(t', v', r.node)
    ensures AllInStep(v.nodes) ==> AllInStep(v'.nodes)
  {}

  lemma KeepTrackOn(t: Tree, v: Cache, t1: Tree, v1: Cache, t2: Tree, v2: Cache, a: set<Ptr>, b: set<Ptr>)
    requires KeepTrack(t, v, t1, v1, a) && KeepTrack(t1, v1, t2, v2, b)
    ensures KeepTrack(t, v, t2, v2, a + b)
  {
    forall d | Tracked(t, v, d) && d !in a + b
      ensures Tracked(t2, v2, d)
    {
      assert Tracked(t1, v1, d);
    }
  }

  lemma StillTracked(t: Tree, v: Cache, t': Tree, v': Cache, lost: set<Ptr>, d: Ptr)
    requires KeepTrack(t, v, t', v', lost) && Tracked(t, v, d) && d !in lost
    ensures Tracked(t', v', d)
  {}

  /**
   * The node cache agrees with the disk after any run: a directory that agreed with a scan before it lists, once
   * it is loaded, exactly what scanning its bytes afresh would find, unless it was lost on the way.
   */
  method RunThenList(dr: Driver, ops: seq<Op>, d: Ptr)
    requires dr.Valid() && (forall i :: 0 <= i < |ops| ==> OpFits(ops[i])) && d !in Lost(ops) && Tracked(dr.tree, dr.View(), d)
    modifies dr`nodes, dr`nextPtr, dr`at, dr`holder, dr`l, dr`tree, dr.vol`disk, dr.vol.buf
    ensures dr.Valid() && d in dr.nodes && dr.nodes[d].loaded
    ensures var head := HeadOf(dr.tree.root, dr.nodes[d]);
      head in dr.tree.store && LongNamesFit(dr.tree.store[head]) && FreshItems(dr.tree.store[head]) == CachedItems(dr.View(), d)
  {
    hide Driver.Valid, KeepTrack, Tracked, OpFits, TreeSound, CacheSound, LongNamesFit, FreshItems, CachedItems, Listed,
         Scan, Grew, Lossless,
         RightReplies, Lost;
    ghost var t, v := dr.tree, dr.View();
    var rs, made := Run(dr, ops, map[]);
    StillTracked(t, v, dr.tree, dr.View(), Lost(ops), d);
    TrackedIsDir(dr.tree, dr.View(), d);
    ghost var t1, v1 := dr.tree, dr.View();
    Load(dr, d);
    StillTracked(t1, v1, dr.tree, dr.View(), {}, d);
    SoundParts(dr);
    TrackedAgrees(dr.tree, dr.View(), d);
  }

  lemma TrackedIsDir(t: Tree, v: Cache, d: Ptr)
    requires Tracked(t, v, d)
    ensures d in v.nodes && v.nodes[d].isDir
  {}
}
