/** The descriptor layer: open files over the RAM filesystem and over the FAT32 driver. */
module Vfs {
  import opened Bytes
  import opened FileSpec
  import opened FileMachine
  import opened FatTable
  import opened FatChains
  import opened FatEntries
  import opened FatTree
  import opened FatNodes
  import opened FatScan
  import opened FatStore
  import opened FatRoom
  import opened FatFileOps
  import opened FatDriver
  import opened FatDirs
  import opened FatCreate
  import opened Ramfs

  const MAX_FDS: nat := 32
  const FIRST_FD: nat := 3

  /** What a descriptor may refer to; the constructor picks the functions that serve it. */
  datatype VNode = NoNode | Ram(file: RamFile) | Fat(p: Ptr)

  datatype Fd = Fd(used: bool, node: VNode, offset: nat)

  /** The last call made was a write that took fewer bytes than it was given. */
  predicate CutShort(rs: seq<Result>, ops: seq<Op>) {
    0 < |rs| <= |ops| && ops[|rs| - 1].WriteOp? && rs[|rs| - 1].n < |ops[|rs| - 1].bs|
  }

  /** How many bytes go in at `offset` when not all do: a FAT file is filled up, a RAM file is left alone. */
  function CutAt(partial: bool, limit: nat, offset: nat): int { if partial && offset < limit then limit - offset else ERR_NOSPACE }

  /** The bytes a write of `bs` that returned `n` put into the file. */
  function Accepted(bs: seq<byte>, n: int): seq<byte>
    requires n <= |bs|
  {
    if n > 0 then bs[..n] else []
  }

  /** A file's bytes after a write that returned `n`; on a RAM file one of nothing, past the end, moves the end. */
  function After(ram: bool, content: seq<byte>, offset: nat, bs: seq<byte>, n: int): seq<byte>
    requires n <= |bs|
  {
    if ram && n == 0 && bs == [] then RamWritten(content, offset, []) else Overwrite(content, offset, Accepted(bs, n))
  }

  lemma WriteIsStep(content: seq<byte>, offset: nat, bs: seq<byte>, n: int, ram: bool, granted: bool)
    requires n <= |bs| && bs != []
    ensures State(After(ram, content, offset, bs, n), offset + if n > 0 then n else 0) ==
      Step(State(content, offset), WriteOp(Accepted(bs, n), granted))
  {}

  /** The size shown after a write that grew the content from `len0` to `len` bytes and ended at `end`. */
  function SizeAfter(len0: nat, len: nat, shown: nat, end: nat): nat {
    var size := if len > len0 then len else shown;
    if end > size then end else size
  }

  /** Files are still there, with the bytes they had. */
  predicate StillThere(files: map<Ptr, seq<byte>>, files': map<Ptr, seq<byte>>) {
    forall q :: q in files ==> q in files' && files'[q] == files[q]
  }

  lemma AllStillThere(a: map<Ptr, seq<byte>>)
    ensures StillThere(a, a)
  {}

  lemma StillThereOn(a: map<Ptr, seq<byte>>, b: map<Ptr, seq<byte>>, c: map<Ptr, seq<byte>>)
    requires StillThere(a, b) && StillThere(b, c)
    ensures StillThere(a, c)
  {}

  /** The last of the calls on a file in state `st` was a write that did not fit; the file took what the limit allows. */
  ghost predicate Filled(st: State, ops: seq<Op>, rs: seq<Result>, st': State, partial: bool, limit: nat) {
    CutShort(rs, ops) &&
    var k := |rs| - 1;
    var before, op := RunState(st, ops[..k]), ops[k];
    && rs[..k] == RunResults(st, ops[..k])
    && rs[k] == Result(CutAt(partial, limit, before.offset), [])
    && st' == Step(before, WriteOp(Accepted(op.bs, rs[k].n), op.granted))
  }

  class Descriptors {
    const dr: Driver
    const fds: array<Fd>

    constructor (dr: Driver)
      ensures this.dr == dr && fds.Length == MAX_FDS && fresh(fds)
      ensures forall i :: 0 <= i < MAX_FDS ==> !fds[i].used
    {
      this.dr := dr;
      fds := new Fd[MAX_FDS](_ => Fd(false, NoNode, 0));
    }

    predicate IsOpen(fd: int)
      reads fds
    {
      0 <= fd < fds.Length && fds[fd].used
    }

    ghost function Region(n: VNode): set<object>
      reads if n.Ram? then {n.file} else {}
    {
      if n.Ram? then {n.file, n.file.data} else {}
    }

    /** A regular file whose directory is there, with zero bytes beyond its end. */
    ghost predicate NodeThere(n: VNode)
      reads dr, dr.vol, if n.Ram? then {n.file} else {}, Region(n)
      ensures NodeThere(n) ==> n.Ram? || n.Fat?
    {
      match n
      case NoNode => false
      case Ram(f) => f.Valid() && f.data != dr.vol.buf
      case Fat(p) => dr.Valid() && p in dr.nodes && !dr.nodes[p].isDir && dr.nodes[p].parent in dr.nodes
                     && ZeroTail(dr.tree, dr.nodes[p])
    }

    /** `node->size`, the size this layer goes by. */
    function SizeShown(n: VNode): nat
      reads dr, if n.Ram? then {n.file} else {}
    {
      match n
      case NoNode => 0
      case Ram(f) => f.nodeSize
      case Fat(p) => if p in dr.nodes then dr.nodes[p].size else 0
    }

    /** Such a file in good order: that is also its size. */
    ghost predicate NodeOk(n: VNode)
      reads dr, dr.vol, if n.Ram? then {n.file} else {}, Region(n)
      ensures NodeOk(n) ==> NodeThere(n)
    {
      NodeThere(n) &&
      match n
      case NoNode => false
      case Ram(f) => f.nodeSize == f.size
      case Fat(p) => dr.nodes[p].size == dr.nodes[p].fileSize
    }

    ghost function Content(n: VNode): seq<byte>
      requires NodeThere(n)
      reads dr, dr.vol, if n.Ram? then {n.file} else {}, Region(n)
    {
      match n
      case NoNode => []
      case Ram(f) => f.Content()
      case Fat(p) => dr.Content(p)
    }

    /** The FAT files in good order, but for that of node `n`. */
    ghost function OtherFiles(n: VNode): map<Ptr, seq<byte>>
      reads dr, dr.vol
    {
      map q | q in dr.nodes && n != Fat(q) && NodeOk(Fat(q)) :: Content(Fat(q))
    }

    /** How long the file may become: the size limit, or what its own clusters and the free ones can hold. */
    ghost function Limit(n: VNode): nat
      reads dr, dr.vol
    {
      match n
      case NoNode => 0
      case Ram(f) => MAX_FILESIZE
      case Fat(p) => if p in dr.nodes then dr.Room(p) else 0
    }

    /** A write up to `end` is taken whole: it is within the limit, and a RAM file has or gets the buffer for it. */
    ghost predicate Taken(n: VNode, end: nat, granted: bool)
      reads dr, dr.vol, if n.Ram? then {n.file} else {}
    {
      end <= Limit(n) && (n.Ram? ==> end <= n.file.capacity || granted)
    }

    /** How many of `count` bytes a write at `offset` takes, or the error. */
    ghost function Count(n: VNode, offset: nat, count: nat, granted: bool): int
      reads dr, dr.vol, if n.Ram? then {n.file} else {}
    {
      if n.Fat? && count == 0 then 0
      else if Taken(n, offset + count, granted) then count
      else CutAt(n.Fat?, Limit(n), offset)
    }

    ghost predicate FdOk(fd: int)
      reads dr, dr.vol, fds, if IsOpen(fd) && fds[fd].node.Ram? then {fds[fd].node.file} else {},
            if IsOpen(fd) then Region(fds[fd].node) else {}
    {
      fds.Length == MAX_FDS && IsOpen(fd) && NodeOk(fds[fd].node)
    }

    /** The open file as the abstract machine sees it. */
    ghost function StateOf(fd: int): State
      requires FdOk(fd)
      reads dr, dr.vol, fds, if IsOpen(fd) && fds[fd].node.Ram? then {fds[fd].node.file} else {},
            if IsOpen(fd) then Region(fds[fd].node) else {}
    {
      State(Content(fds[fd].node), fds[fd].offset)
    }

    /** The lowest free descriptor from 3 on, or -1. */
    method AllocFd() returns (fd: int)
      requires fds.Length == MAX_FDS
      ensures fd == -1 ==> forall i :: FIRST_FD <= i < MAX_FDS ==> fds[i].used
      ensures fd != -1 ==> FIRST_FD <= fd < MAX_FDS && !fds[fd].used && forall i :: FIRST_FD <= i < fd ==> fds[i].used
    {
      for i := FIRST_FD to MAX_FDS
        invariant forall j :: FIRST_FD <= j < i ==> fds[j].used
      {
        if !fds[i].used { return i; }
      }
      fd := -1;
    }

    method NodeSize(n: VNode) returns (size: nat)
      requires NodeOk(n)
      ensures NodeOk(n) && Content(n) == old(Content(n)) && size == |Content(n)|
    {
      if n.Ram? {
        size := n.file.nodeSize;
      } else {
        dr.FileHead(n.p);
        size := dr.nodes[n.p].size;
      }
    }

    /** The end of `vfs_open`: a descriptor at the start of the file, or at its end for appending. */
    method Open(n: VNode, append: bool) returns (fd: int)
      requires fds.Length == MAX_FDS && NodeOk(n)
      modifies fds
      ensures fd == ERR_NOSPACE ==>
        (forall i :: FIRST_FD <= i < MAX_FDS ==> old(fds[i]).used) && fds[..] == old(fds[..])
      ensures fd != ERR_NOSPACE ==>
        && FIRST_FD <= fd < MAX_FDS && !old(fds[fd]).used
        && fds[..] == old(fds[..])[fd := Fd(true, n, if append then |Content(n)| else 0)]
    {
      hide TreeSound, CacheSound, Settled, Owned, IsStore, Handles, ZeroTail, ContentOf;
      fd := AllocFd();
      if fd < 0 { return ERR_NOSPACE; }
      var start: nat := 0;
      if append { start := NodeSize(n); }
      fds[fd] := Fd(true, n, start);
    }

    /**
     * The end of `vfs_open` with VFS_O_TRUNC: the size shown becomes 0, and the file keeps all its bytes. The file is in
     * good order after that only if it was empty.
     */
    method OpenTruncated(n: VNode) returns (fd: int)
      requires fds.Length == MAX_FDS && NodeThere(n)
      modifies fds, if n.Ram? then {n.file} else {dr}
      ensures fd == ERR_NOSPACE ==>
        (forall i :: FIRST_FD <= i < MAX_FDS ==> old(fds[i]).used) && fds[..] == old(fds[..]) && SizeShown(n) == old(SizeShown(n))
      ensures fd != ERR_NOSPACE ==>
        && FIRST_FD <= fd < MAX_FDS && !old(fds[fd]).used && fds[..] == old(fds[..])[fd := Fd(true, n, 0)]
        && SizeShown(n) == 0 && (NodeOk(n) <==> old(Content(n)) == [])
      ensures n.Ram? ==> n.file.data == old(n.file.data) && n.file.capacity == old(n.file.capacity)
      ensures NodeThere(n) && Content(n) == old(Content(n)) && Limit(n) == old(Limit(n))
    {
      hide TreeSound, CacheSound, Settled, Owned, IsStore, Handles, ZeroTail, ContentOf, RoomIn, Base;
      fd := AllocFd();
      if fd < 0 { return ERR_NOSPACE; }
      ShowNothing(n);
      SizesAgree(n);
      PutFd(fd, Fd(true, n, 0));
    }

    /** `node->size = 0`. */
    method ShowNothing(n: VNode)
      requires NodeThere(n)
      modifies if n.Ram? then {n.file} else {dr}
      ensures SizeShown(n) == 0 && NodeThere(n) && Content(n) == old(Content(n)) && Limit(n) == old(Limit(n))
      ensures n.Ram? ==> n.file.data == old(n.file.data) && n.file.capacity == old(n.file.capacity)
    {
      hide TreeSound, CacheSound, Settled, Owned, IsStore, Handles, RoomIn, Base;
      if n.Ram? { n.file.nodeSize := 0; } else { SetSize(n.p, 0); }
    }

    method PutFd(fd: nat, f: Fd)
      requires fd < fds.Length
      modifies fds
      ensures fds[..] == old(fds[..])[fd := f]
    {
      fds[fd] := f;
    }

    /**
     * A file opened with VFS_O_TRUNC, which is how the shell's `write` replaces a file, written from its start and closed.
     * If all bytes went in, the file holds exactly them if and only if it was not longer before; the size shown is theirs
     * in any case.
     */
    method Rewrite(n: VNode, bs: seq<byte>, granted: bool) returns (written: int)
      requires fds.Length == MAX_FDS && NodeThere(n) && bs != [] && |bs| < TWO32
      modifies fds, Touched(n)
      ensures NodeThere(n)
      ensures (forall i :: FIRST_FD <= i < MAX_FDS ==> old(fds[i]).used) ==> written == ERR_NOSPACE && Content(n) == old(Content(n))
      ensures !(forall i :: FIRST_FD <= i < MAX_FDS ==> old(fds[i]).used) ==>
        && written == old(Count(n, 0, |bs|, granted)) <= |bs|
        && Content(n) == Overwrite(old(Content(n)), 0, Accepted(bs, written))
        && (written == |bs| ==> SizeShown(n) == |bs| && (Content(n) == bs <==> |old(Content(n))| <= |bs|))
    {
      hide Driver.Valid, ZeroTail, ContentOf, Driver.Room, Overwrite, SizeAfter, StillThere, OtherFiles;
      ghost var content := Content(n);
      var fd := OpenTruncated(n);
      if fd < 0 { return ERR_NOSPACE; }
      written := WriteThrough(n, 0, bs, granted);
      if written == |bs| { Replaced(content, bs); }
      PutFd(fd, Fd(false, NoNode, 0));
    }

    lemma Replaced(content: seq<byte>, bs: seq<byte>)
      requires bs != []
      ensures Overwrite(content, 0, bs) == bs <==> |content| <= |bs|
      ensures Accepted(bs, |bs|) == bs
      ensures SizeAfter(|content|, |Overwrite(content, 0, bs)|, 0, |bs|) == |bs|
    {
      var r := Overwrite(content, 0, bs);
      if |content| <= |bs| { assert r == bs; }
    }

    method Close(fd: int) returns (n: int)
      modifies fds
      ensures n == if old(IsOpen(fd)) then 0 else ERR_BADF
      ensures fds[..] == if old(IsOpen(fd)) then old(fds[..])[fd := Fd(false, NoNode, 0)] else old(fds[..])
    {
      if !(0 <= fd < fds.Length) || !fds[fd].used { return ERR_BADF; }
      fds[fd] := Fd(false, NoNode, 0);
      n := 0;
    }

    /** `node->ops->read`. */
    method ReadNode(node: VNode, offset: nat, count: nat) returns (n: int, out: seq<byte>)
      requires NodeOk(node)
      modifies dr.vol.buf
      ensures NodeOk(node) && Content(node) == old(Content(node))
      ensures n == |out| && out == Slice(Content(node), offset, count)
    {
      hide TreeSound, CacheSound, Settled, Owned, IsStore, Handles, ZeroTail, ContentOf, Slice;
      if node.Ram? {
        out := node.file.Read(offset, count);
        n := |out|;
      } else {
        n, out := dr.Read(node.p, offset, count);
      }
    }

    /** Moves the position of an open descriptor. */
    method SetOffset(fd: int, offset: nat)
      requires FdOk(fd)
      modifies fds
      ensures FdOk(fd) && StateOf(fd) == old(StateOf(fd)).(offset := offset)
      ensures fds[..] == old(fds[..])[fd := old(fds[fd]).(offset := offset)]
    {
      hide TreeSound, CacheSound, Settled, Owned, IsStore, Handles, ZeroTail, ContentOf;
      fds[fd] := fds[fd].(offset := offset);
    }

    method Read(fd: int, count: nat) returns (n: int, out: seq<byte>)
      requires IsOpen(fd) ==> FdOk(fd)
      modifies fds, dr.vol.buf
      ensures !old(IsOpen(fd)) ==> n == ERR_BADF && out == [] && fds[..] == old(fds[..])
      ensures old(IsOpen(fd)) ==>
        && FdOk(fd) && Result(n, out) == ResultOf(old(StateOf(fd)), ReadOp(count))
        && n == |out| && out == Slice(old(StateOf(fd)).content, old(fds[fd]).offset, count)
        && StateOf(fd) == Step(old(StateOf(fd)), ReadOp(count))
        && fds[..] == old(fds[..])[fd := old(fds[fd]).(offset := old(fds[fd]).offset + n)]
    {
      hide NodeOk, NodeThere, Content, Slice;
      if !(0 <= fd < fds.Length) || !fds[fd].used { return ERR_BADF, []; }
      var f := fds[fd];
      n, out := ReadNode(f.node, f.offset, count);
      assert StateOf(fd) == old(StateOf(fd));
      if n > 0 {
        SetOffset(fd, f.offset + n);
      } else {
        assert fds[..] == old(fds[..])[fd := old(fds[fd]).(offset := f.offset)];
      }
    }

    method Seek(fd: int, delta: int, whence: int) returns (n: int)
      requires IsOpen(fd) ==> FdOk(fd)
      modifies fds
      ensures !old(IsOpen(fd)) ==> n == ERR_BADF && fds[..] == old(fds[..])
      ensures old(IsOpen(fd)) ==>
        && FdOk(fd)
        && n == (match whence
                 case 0 => if delta < 0 then 0 else delta
                 case 1 => if old(fds[fd]).offset + delta < 0 then 0 else old(fds[fd]).offset + delta
                 case 2 => if |old(StateOf(fd)).content| + delta < 0 then 0 else |old(StateOf(fd)).content| + delta
                 case _ => ERR_INVAL)
        && n == ResultOf(old(StateOf(fd)), SeekOp(delta, whence)).n
        && StateOf(fd) == Step(old(StateOf(fd)), SeekOp(delta, whence))
        && fds[..] == old(fds[..])[fd := old(fds[fd]).(offset := StateOf(fd).offset)]
    {
      hide NodeOk, NodeThere, Content;
      if !(0 <= fd < fds.Length) || !fds[fd].used { return ERR_BADF; }
      var f := fds[fd];
      var to: int;
      if whence == 0 {
        to := delta;
      } else if whence == 1 {
        to := f.offset + delta;
      } else if whence == 2 {
        var size := NodeSize(f.node);
        to := size + delta;
      } else {
        assert fds[..] == old(fds[..])[fd := old(fds[fd]).(offset := f.offset)];
        return ERR_INVAL;
      }
      if to < 0 { to := 0; }
      SetOffset(fd, to);
      n := to;
    }

    /** What a write to a node may change. */
    ghost function Touched(n: VNode): set<object>
      reads if n.Ram? then {n.file} else {}
    {
      match n
      case NoNode => {}
      case Ram(f) => {f, f.data}
      case Fat(_) => {dr, dr.vol, dr.vol.buf}
    }

    /** `node->ops->write`. */
    method WriteNode(node: VNode, offset: nat, bs: seq<byte>, granted: bool) returns (n: int)
      requires NodeThere(node) && offset + |bs| < TWO64
      modifies Touched(node)
      ensures n <= |bs| && n == old(Count(node, offset, |bs|, granted))
      ensures node.Ram? ==> node.file.data == old(node.file.data) || fresh(node.file.data)
      ensures node.Fat? ==> dr.Valid() && node.p in dr.nodes
      ensures Limit(node) == old(Limit(node))
      ensures StillThere(old(OtherFiles(node)), OtherFiles(node))
      ensures offset + |bs| < TWO32 ==> NodeThere(node) && Content(node) == After(node.Ram?, old(Content(node)), offset, bs, n)
      ensures offset + |bs| < TWO32 ==>
        SizeShown(node) == if |Content(node)| > |old(Content(node))| then |Content(node)| else old(SizeShown(node))
    {
      hide NodeThere, NodeOk, Content, Overwrite, After, Driver.Room, Limit, StillThere, OtherFiles;
      if node.Ram? { n := WriteRam(node.file, offset, bs, granted); } else { n := WriteFat(node.p, offset, bs, granted); }
    }

    method WriteRam(f: RamFile, offset: nat, bs: seq<byte>, granted: bool) returns (n: int)
      requires NodeThere(Ram(f)) && offset + |bs| < TWO64
      modifies f, f.data
      ensures n <= |bs| && n == old(Count(Ram(f), offset, |bs|, granted))
      ensures f.data == old(f.data) || fresh(f.data)
      ensures StillThere(old(OtherFiles(Ram(f))), OtherFiles(Ram(f)))
      ensures NodeThere(Ram(f)) && Content(Ram(f)) == After(true, old(Content(Ram(f))), offset, bs, n)
      ensures f.nodeSize == if |Content(Ram(f))| > |old(Content(Ram(f)))| then |Content(Ram(f))| else old(f.nodeSize)
    {
      hide Driver.Valid, RamWritten, Overwrite, GrownFor;
      ghost var content := f.Content();
      n := f.Write(offset, bs, granted);
      RamWriteIsOverwrite(content, offset, bs);
      NothingOver(content, offset);
      if n == |bs| { assert Accepted(bs, n) == bs; }
    }

    method WriteFat(p: Ptr, offset: nat, bs: seq<byte>, ghost granted: bool) returns (n: int)
      requires NodeThere(Fat(p)) && offset + |bs| < TWO64
      modifies dr, dr.vol, dr.vol.buf
      ensures n <= |bs| && n == old(Count(Fat(p), offset, |bs|, granted))
      ensures dr.Valid() && p in dr.nodes && Limit(Fat(p)) == old(Limit(Fat(p)))
      ensures StillThere(old(OtherFiles(Fat(p))), OtherFiles(Fat(p)))
      ensures offset + |bs| < TWO32 ==> NodeThere(Fat(p)) && Content(Fat(p)) == After(false, old(Content(Fat(p))), offset, bs, n)
      ensures offset + |bs| < TWO32 ==>
        SizeShown(Fat(p)) == if |Content(Fat(p))| > |old(Content(Fat(p)))| then |Content(Fat(p))| else old(SizeShown(Fat(p)))
    {
      hide Driver.Valid, ZeroTail, ContentOf, FileOp, OthersKept, Overwrite, Driver.Room, Outcome, SizeStep, KeepTrack, LedgerStep,
           ShownEmpty, SmallDirs;
      dr.FileHead(p);
      FatSize(p);
      n := dr.Write(p, offset, bs);
      FatWritten(old(dr.tree), old(dr.nodes)[p], dr.tree, dr.nodes[p], offset, bs, n);
      FatSize(p);
      OthersSame(old(dr.tree), old(dr.View()), dr.tree, dr.View(), p);
      forall q | q in old(OtherFiles(Fat(p)))
        ensures q in OtherFiles(Fat(p)) && OtherFiles(Fat(p))[q] == old(OtherFiles(Fat(p)))[q]
      {
        OneOther(old(dr.tree), old(dr.nodes), dr.tree, dr.nodes, p, q);
      }
    }

    lemma OneOther(t: Tree, nodes: map<Ptr, Node>, t': Tree, nodes': map<Ptr, Node>, p: Ptr, q: Ptr)
      requires OthersKept(t, nodes, t', nodes', p) && q in nodes && q in nodes' && q != p && !nodes[q].isDir
      ensures ContentOf(t', nodes'[q]) == ContentOf(t, nodes[q]) && (ZeroTail(t, nodes[q]) ==> ZeroTail(t', nodes'[q]))
    {}

    /** The content is as long as the driver's size says. */
    lemma FatSize(p: Ptr)
      requires dr.Valid() && p in dr.nodes && !dr.nodes[p].isDir
      ensures |dr.Content(p)| == dr.nodes[p].fileSize
    {
      hide TreeSound, CacheSound, Settled, Owned, IsStore, Handles;
      dr.FileHead(p);
    }

    lemma NothingOver(content: seq<byte>, offset: nat)
      ensures Overwrite(content, offset, []) == content
    {}

    /** On a file in good order the outcome of a FAT write is the plain overwrite. */
    lemma FatWritten(t: Tree, n0: Node, t': Tree, n1: Node, offset: nat, bs: seq<byte>, n: int)
      requires bs != [] && offset + |bs| < TWO32 && !n0.isDir ==> Outcome(t, n0, t', n1, offset, bs, n) && SizeStep(n0, n1, offset, n)
      requires bs == [] && !n0.isDir ==> n == 0 && n1 == n0 && t' == t
      requires ZeroTail(t, n0)
      ensures offset + |bs| < TWO32 && !n0.isDir ==>
        && n <= |bs| && ContentOf(t', n1) == Overwrite(ContentOf(t, n0), offset, Accepted(bs, n)) && ZeroTail(t', n1)
        && n1.size == if n1.fileSize > n0.fileSize then n1.fileSize else n0.size
    {}

    ghost function TouchedBy(fd: int): set<object>
      reads fds, if IsOpen(fd) && fds[fd].node.Ram? then {fds[fd].node.file} else {}
    {
      if IsOpen(fd) then Touched(fds[fd].node) else {}
    }

    /** `if (f->offset > f->node->size) f->node->size = f->offset`. */
    method RaiseSize(node: VNode, end: nat)
      requires node.Ram? || (node.Fat? && dr.Valid() && node.p in dr.nodes)
      modifies if node.Ram? then {node.file} else {dr}
      ensures node.Ram? ==> node.file.data == old(node.file.data)
      ensures Limit(node) == old(Limit(node))
      ensures StillThere(old(OtherFiles(node)), OtherFiles(node))
      ensures SizeShown(node) == if end > old(SizeShown(node)) then end else old(SizeShown(node))
      ensures old(NodeThere(node)) ==> NodeThere(node) && Content(node) == old(Content(node))
    {
      hide TreeSound, CacheSound, Settled, Owned, IsStore, Handles, RoomIn, Base;
      if node.Ram? {
        if end > node.file.nodeSize { node.file.nodeSize := end; }
      } else {
        if end > dr.nodes[node.p].size { SetSize(node.p, end); }
      }
    }

    /** `node->size = size` for a FAT file. */
    method SetSize(p: Ptr, size: nat)
      requires dr.Valid() && p in dr.nodes
      modifies dr
      ensures dr.Valid() && p in dr.nodes && SizeShown(Fat(p)) == size && Limit(Fat(p)) == old(Limit(Fat(p)))
      ensures StillThere(old(OtherFiles(Fat(p))), OtherFiles(Fat(p)))
      ensures old(NodeThere(Fat(p))) ==> NodeThere(Fat(p)) && Content(Fat(p)) == old(Content(Fat(p)))
    {
      hide TreeSound, CacheSound, Settled, Owned, IsStore, Handles, RoomIn, Base;
      dr.SetNodeSize(p, size);
    }

    /**
     * Within 32 bits, a write through a descriptor is the plain overwrite by the bytes accepted, which are all of them
     * exactly if the file can hold them.
     */
    method Write(fd: int, bs: seq<byte>, granted: bool) returns (n: int)
      requires IsOpen(fd) ==> FdOk(fd) && fds[fd].offset + |bs| < TWO64
      modifies fds, TouchedBy(fd)
      ensures !old(IsOpen(fd)) ==> n == ERR_BADF && fds[..] == old(fds[..])
      ensures old(IsOpen(fd)) ==>
        && n <= |bs| && n == old(Count(fds[fd].node, fds[fd].offset, |bs|, granted))
        && IsOpen(fd) && fds[fd].node == old(fds[fd]).node
        && fds[..] == old(fds[..])[fd := old(fds[fd]).(offset := old(fds[fd]).offset + if n > 0 then n else 0)]
        && (fds[fd].node.Ram? ==> fds[fd].node.file.data == old(fds[fd].node.file.data) || fresh(fds[fd].node.file.data))
        && StillThere(old(OtherFiles(fds[fd].node)), OtherFiles(fds[fd].node))
      ensures old(IsOpen(fd)) && bs != [] && old(fds[fd]).offset + |bs| < TWO32 ==>
        && FdOk(fd)
        && StateOf(fd) == Step(old(StateOf(fd)), WriteOp(Accepted(bs, n), granted))
      ensures old(IsOpen(fd)) && bs == [] && old(fds[fd]).offset < TWO32 ==>
        FdOk(fd) && Content(fds[fd].node) == After(fds[fd].node.Ram?, old(StateOf(fd)).content, old(fds[fd]).offset, [], n)
    {
      hide FdOk, StateOf, Overwrite;
      if !(0 <= fd < fds.Length) || !fds[fd].used { return ERR_BADF; }
      n := WriteOpen(fd, bs, granted);
    }

    method WriteOpen(fd: int, bs: seq<byte>, granted: bool) returns (n: int)
      requires FdOk(fd) && fds[fd].offset + |bs| < TWO64
      modifies fds, Touched(fds[fd].node)
      ensures n <= |bs| && n == old(Count(fds[fd].node, fds[fd].offset, |bs|, granted))
      ensures IsOpen(fd) && fds[fd].node == old(fds[fd]).node
      ensures Limit(fds[fd].node) == old(Limit(fds[fd].node))
      ensures StillThere(old(OtherFiles(fds[fd].node)), OtherFiles(fds[fd].node))
      ensures fds[..] == old(fds[..])[fd := old(fds[fd]).(offset := old(fds[fd]).offset + if n > 0 then n else 0)]
      ensures fds[fd].node.Ram? ==> fds[fd].node.file.data == old(fds[fd].node.file.data) || fresh(fds[fd].node.file.data)
      ensures bs != [] && old(fds[fd]).offset + |bs| < TWO32 ==>
        && FdOk(fd)
        && StateOf(fd) == Step(old(StateOf(fd)), WriteOp(Accepted(bs, n), granted))
      ensures bs == [] && old(fds[fd]).offset < TWO32 ==>
        FdOk(fd) && Content(fds[fd].node) == After(fds[fd].node.Ram?, old(StateOf(fd)).content, old(fds[fd]).offset, [], n)
    {
      hide Driver.Valid, ZeroTail, ContentOf, Driver.Room, After, Step, StillThere, SizeAfter;
      var f := fds[fd];
      ghost var content := Content(f.node);
      n := WriteThrough(f.node, f.offset, bs, granted);
      if bs != [] { WriteIsStep(content, f.offset, bs, n, f.node.Ram?, granted); }
      if n > 0 { fds[fd] := f.(offset := f.offset + n); }
    }

    /** The write, and the node's size brought up to where it ended. */
    method WriteThrough(node: VNode, offset: nat, bs: seq<byte>, granted: bool) returns (n: int)
      requires NodeThere(node) && offset + |bs| < TWO64
      modifies Touched(node)
      ensures n <= |bs| && n == old(Count(node, offset, |bs|, granted))
      ensures node.Ram? ==> node.file.data == old(node.file.data) || fresh(node.file.data)
      ensures Limit(node) == old(Limit(node))
      ensures StillThere(old(OtherFiles(node)), OtherFiles(node))
      ensures offset + |bs| < TWO32 ==> NodeThere(node) && Content(node) == After(node.Ram?, old(Content(node)), offset, bs, n)
      ensures offset + |bs| < TWO32 ==>
        SizeShown(node) == SizeAfter(|old(Content(node))|, |Content(node)|, old(SizeShown(node)), if n > 0 then offset + n else 0)
      ensures offset + |bs| < TWO32 && old(NodeOk(node)) ==> NodeOk(node)
    {
      hide NodeThere, NodeOk, Content, Overwrite, After, Driver.Room, Limit, SizeShown, StillThere, OtherFiles;
      if NodeOk(node) { SizesAgree(node); }
      ghost var before, others := Content(node), OtherFiles(node);
      n := WriteNode(node, offset, bs, granted);
      ghost var mid := OtherFiles(node);
      if n > 0 {
        if offset + |bs| < TWO32 { EndReached(node.Ram?, before, offset, bs, n); }
        RaiseSize(node, offset + n);
        StillThereOn(others, mid, OtherFiles(node));
      }
      if offset + |bs| < TWO32 {
        EndKept(node.Ram?, before, offset, bs, n);
        SizesAgree(node);
      }
    }

    lemma SizesAgree(n: VNode)
      requires NodeThere(n)
      ensures NodeOk(n) <==> SizeShown(n) == |Content(n)|
    {
      hide TreeSound, CacheSound, Settled, Owned, IsStore, Handles, ZeroTail;
      if n.Fat? { FatSize(n.p); }
    }

    lemma EndReached(ram: bool, content: seq<byte>, offset: nat, bs: seq<byte>, n: int)
      requires 0 < n <= |bs|
      ensures offset + n <= |After(ram, content, offset, bs, n)|
    {}

    lemma EndKept(ram: bool, content: seq<byte>, offset: nat, bs: seq<byte>, n: int)
      requires n <= |bs|
      ensures |After(ram, content, offset, bs, n)| >= |content|
    {}

    // ---- Runs

    /** One call; `refused` if a write was cut short or turned away, which is exactly if the file cannot hold it. */
    method Call(fd: int, op: Op) returns (r: Result, refused: bool)
      requires FdOk(fd) && InBounds(StateOf(fd), op)
      modifies fds, dr.vol.buf, Touched(fds[fd].node)
      ensures refused <==> op.WriteOp? && !old(Taken(fds[fd].node, fds[fd].offset + |op.bs|, op.granted))
      ensures FdOk(fd) && fds[fd].node == old(fds[fd]).node
      ensures Limit(fds[fd].node) == old(Limit(fds[fd].node))
      ensures StillThere(old(OtherFiles(fds[fd].node)), OtherFiles(fds[fd].node))
      ensures forall i :: 0 <= i < fds.Length && i != fd ==> fds[i] == old(fds[i])
      ensures fds[fd].node.Ram? ==> fds[fd].node.file.data == old(fds[fd].node.file.data) || fresh(fds[fd].node.file.data)
      ensures !refused ==> r == ResultOf(old(StateOf(fd)), op) && StateOf(fd) == Step(old(StateOf(fd)), op)
      ensures refused ==> r.n < |op.bs| && r == Result(CutAt(fds[fd].node.Fat?, Limit(fds[fd].node), old(fds[fd]).offset), [])
      ensures refused ==> StateOf(fd) == Step(old(StateOf(fd)), WriteOp(Accepted(op.bs, r.n), op.granted))
    {
      hide Content, Driver.Room, Driver.Valid, ZeroTail, RamFile.Valid;
      refused := false;
      match op {
        case ReadOp(count) =>
          var n, out := Read(fd, count);
          r := Result(n, out);
        case WriteOp(bs, granted) =>
          var n := WriteOpen(fd, bs, granted);
          r, refused := Result(n, []), n < |bs|;
          assert n == |bs| ==> bs[..n] == bs;
        case SeekOp(delta, whence) =>
          var n := Seek(fd, delta, whence);
          r := Result(n, []);
      }
    }

    /** Only a RAM file without its buffer is not written to within the limit. */
    lemma TakenFits(n: VNode, st: State, op: Op)
      requires op.WriteOp?
      ensures Taken(n, st.offset + |op.bs|, op.granted) ==> Within(st, op, Limit(n))
      ensures (op.granted || !n.Ram?) && Within(st, op, Limit(n)) ==> Taken(n, st.offset + |op.bs|, op.granted)
    {}

    /** A run of calls on one descriptor returns what the abstract file returns, until a write is refused. */
    method Run(fd: int, ops: seq<Op>) returns (rs: seq<Result>, refused: bool)
      requires FdOk(fd) && AllInBounds(StateOf(fd), ops)
      modifies fds, dr.vol.buf, Touched(fds[fd].node)
      ensures FdOk(fd) && fds[fd].node == old(fds[fd]).node
      ensures forall i :: 0 <= i < fds.Length && i != fd ==> fds[i] == old(fds[i])
      ensures !refused ==> rs == RunResults(old(StateOf(fd)), ops) && StateOf(fd) == RunState(old(StateOf(fd)), ops)
      ensures refused ==> Filled(old(StateOf(fd)), ops, rs, StateOf(fd), fds[fd].node.Fat?, Limit(fds[fd].node))
      ensures Limit(fds[fd].node) == old(Limit(fds[fd].node))
      ensures StillThere(old(OtherFiles(fds[fd].node)), OtherFiles(fds[fd].node))
      ensures AllGranted(ops) || fds[fd].node.Fat? ==> (refused <==> !AllWithin(old(StateOf(fd)), ops, Limit(fds[fd].node)))
    {
      hide NodeOk, NodeThere, Content, OtherFiles, StillThere, Step, ResultOf, InBounds, Limit, Taken, Within, RunState, RunResults;
      ghost var st, limit, others := StateOf(fd), Limit(fds[fd].node), OtherFiles(fds[fd].node);
      RunNone(st, ops);
      AllStillThere(others);
      rs, refused := [], false;
      for i := 0 to |ops|
        invariant FdOk(fd) && fds[fd].node == old(fds[fd]).node && !refused
        invariant forall j :: 0 <= j < fds.Length && j != fd ==> fds[j] == old(fds[j])
        invariant fds[fd].node.Ram? ==> fds[fd].node.file.data == old(fds[fd].node.file.data) || fresh(fds[fd].node.file.data)
        invariant |rs| == i && rs == RunResults(st, ops[..i]) && StateOf(fd) == RunState(st, ops[..i])
        invariant Limit(fds[fd].node) == limit && StillThere(others, OtherFiles(fds[fd].node))
        invariant forall j :: 0 <= j < i ==> Within(RunState(st, ops[..j]), ops[j], limit)
      {
        var r: Result;
        if ops[i].WriteOp? { TakenFits(fds[fd].node, StateOf(fd), ops[i]); } else { NoWriteFits(StateOf(fd), ops[i], limit); }
        ghost var mid := OtherFiles(fds[fd].node);
        r, refused := Call(fd, ops[i]);
        StillThereOn(others, mid, OtherFiles(fds[fd].node));
        RunMore(st, ops, i);
        rs := rs + [r];
        if refused {
          assert rs[..i] == RunResults(st, ops[..i]);
          return;
        }
      }
      assert ops[..|ops|] == ops;
    }

    /**
     * The two filesystems cannot be told apart: the same calls on a RAM file and on a FAT file that hold the
     * same bytes at the same position return the same results, if all writes end within 512 KiB and within what the
     * FAT file's own and the free clusters hold. If the kernel heap grants all buffers, only then.
     */
    method RunBoth(ram: int, fat: int, ops: seq<Op>) returns (onRam: seq<Result>, onFat: seq<Result>, refused: bool)
      requires FdOk(ram) && FdOk(fat) && fds[ram].node.Ram? && fds[fat].node.Fat? && StateOf(ram) == StateOf(fat)
      requires AllInBounds(StateOf(ram), ops)
      modifies fds, Touched(fds[ram].node), Touched(fds[fat].node)
      ensures !refused ==> onRam == onFat && onRam == RunResults(old(StateOf(ram)), ops)
      ensures refused ==> CutShort(onRam, ops) || CutShort(onFat, ops)
      ensures FdOk(ram) && FdOk(fat) && (!refused ==> StateOf(ram) == StateOf(fat))
      ensures fds[ram].node == old(fds[ram]).node && fds[fat].node == old(fds[fat]).node && fds[fat].node.p in dr.nodes
      ensures Limit(fds[fat].node) == old(Limit(fds[fat].node))
      ensures AllGranted(ops) ==> (refused <==> !AllWithin(old(StateOf(ram)), ops, Min(MAX_FILESIZE, Limit(fds[fat].node))))
    {
      hide TreeSound, CacheSound, Settled, Owned, IsStore, Handles, ZeroTail, ContentOf, RunState, RunResults, AllInBounds,
           AllWithin, RoomIn, Base;
      WithinBoth(StateOf(ram), ops, MAX_FILESIZE, Limit(fds[fat].node));
      var r1, r2;
      onRam, r1 := Run(ram, ops);
      assert FdOk(fat) && StateOf(fat) == old(StateOf(fat));
      label ran:
      onFat, r2 := Run(fat, ops);
      assert FdOk(ram) && StateOf(ram) == old@ran(StateOf(ram));
      refused := r1 || r2;
    }

    /** A file that `fat32_create` has just made is empty and in good order. */
    lemma FreshFatFile(d: Ptr, p: Ptr, name: seq<byte>)
      requires dr.Valid() && Created(dr.nodes, d, p, name, false)
      ensures NodeOk(Fat(p)) && Content(Fat(p)) == []
    {}

    /** A file that loading its directory has just found is in good order exactly if the bytes beyond its end are zero. */
    lemma LoadedFatFile(before: map<Ptr, Node>, d: Ptr, p: Ptr)
      requires dr.Valid() && Grew(before, dr.nodes, d) && AddedShow(dr.tree, before, dr.View())
      requires p in dr.nodes && p !in before && !dr.nodes[p].isDir
      ensures NodeOk(Fat(p)) <==> ZeroTail(dr.tree, dr.nodes[p])
      ensures p in dr.at && Inside(dr.tree, dr.at[p]) && |dr.Content(p)| == SizeOf(EntryOf(dr.tree, dr.at[p])) == dr.nodes[p].size
    {
      hide TreeSound, CacheSound, Settled, Owned, IsStore, Handles, ZeroTail;
      GrewHead(before, dr.nodes, d);
      dr.FileHead(p);
    }

    /** The bytes beyond the ends of all files are zero, whether or not they have nodes. */
    ghost predicate TailsZero()
      reads dr
    {
      && (forall p :: p in dr.nodes && !dr.nodes[p].isDir ==> ZeroTail(dr.tree, dr.nodes[p]))
      && forall s :: Seen(dr.tree, s) && !IsDir(EntryOf(dr.tree, s)) ==> TailIsZero(dr.tree, EntryOf(dr.tree, s))
    }

    ghost predicate TailIsZero(t: Tree, e: Entry) {
      FirstOf(e) in t.store ==> forall i :: SizeOf(e) <= i < |t.store[FirstOf(e)]| ==> t.store[FirstOf(e)][i] == 0
    }

    lemma TailsStayZero(before: map<Ptr, Node>, d: Ptr, p: Ptr)
      requires dr.Valid() && Grew(before, dr.nodes, d) && AddedShow(dr.tree, before, dr.View()) && p in dr.nodes && !dr.nodes[p].isDir
      requires forall q :: q in before && !before[q].isDir ==> ZeroTail(dr.tree, before[q])
      requires forall s :: Seen(dr.tree, s) && !IsDir(EntryOf(dr.tree, s)) ==> TailIsZero(dr.tree, EntryOf(dr.tree, s))
      ensures ZeroTail(dr.tree, dr.nodes[p])
    {
      hide TreeSound, CacheSound, Settled, Owned, IsStore, Handles;
      if p !in before { assert Seen(dr.tree, dr.at[p]); }
    }

    /**
     * A file looked up in its directory and opened, as `vfs_open` does it: the descriptor stands at the start of what is
     * on disk, or at its end, and everything said about open files holds of it.
     */
    method OpenFound(d: Ptr, name: seq<byte>, append: bool) returns (p: Ptr, fd: int)
      requires dr.Valid() && d in dr.nodes && dr.nodes[d].isDir && AllInStep(dr.nodes) && TailsZero() && fds.Length == MAX_FDS
      modifies fds, dr, dr.vol.buf
      ensures dr.Valid() && AllInStep(dr.nodes) && Grew(old(dr.nodes), dr.nodes, d) && d in dr.nodes && dr.tree == old(dr.tree)
      ensures FirstNamed(dr.nodes, dr.nodes[d].children, name, p)
      ensures p == NULL ==> fd == ERR_NOENT
      ensures p != NULL ==> p in dr.nodes && (dr.nodes[p].isDir <==> fd == ERR_ISDIR)
      ensures fd < 0 ==> fds[..] == old(fds[..])
      ensures fd == ERR_NOSPACE ==> forall i :: FIRST_FD <= i < MAX_FDS ==> old(fds[i]).used
      ensures fd < 0 ==> fd == ERR_NOENT || fd == ERR_ISDIR || fd == ERR_NOSPACE
      ensures p != NULL && fd >= 0 ==>
        && FIRST_FD <= fd < MAX_FDS && !old(fds[fd]).used && FdOk(fd) && fds[fd].node == Fat(p)
        && fds[..] == old(fds[..])[fd := fds[fd]]
        && StateOf(fd) == State(dr.Content(p), if append then |dr.Content(p)| else 0)
    {
      hide Driver.Valid, Grew, FirstNamed, AddedShow, AllInStep, ZeroTail, TailIsZero, Driver.Content;
      ghost var before := dr.nodes;
      p := Lookup(dr, d, name);
      GrewInStep(before, dr.nodes, d);
      if p == NULL { return p, ERR_NOENT; }
      FoundChild(d, name, p);
      if dr.nodes[p].isDir { return p, ERR_ISDIR; }
      TailsStayZero(before, d, p);
      fd := Open(Fat(p), append);
    }

    /** What a lookup finds is a child, and its directory is there. */
    lemma FoundChild(d: Ptr, name: seq<byte>, p: Ptr)
      requires dr.Valid() && d in dr.nodes && FirstNamed(dr.nodes, dr.nodes[d].children, name, p) && p != NULL
      ensures p in dr.nodes && dr.nodes[p].parent == d
      ensures AllInStep(dr.nodes) ==> dr.nodes[p].size == dr.nodes[p].fileSize
    {
      ChildOf(dr.tree, dr.View(), d, p);
    }

    lemma FreshRamFile(f: RamFile)
      requires f.Valid() && f.Content() == [] && f.nodeSize == 0 && f.data != dr.vol.buf
      ensures NodeOk(Ram(f)) && Content(Ram(f)) == []
    {}

    /** Opens a RAM file and a FAT file that hold the same bytes. */
    method OpenBoth(f: RamFile, p: Ptr) returns (ok: bool, ram: int, fat: int)
      requires fds.Length == MAX_FDS && NodeOk(Ram(f)) && NodeOk(Fat(p)) && Content(Ram(f)) == Content(Fat(p))
      modifies fds
      ensures ok ==> FdOk(ram) && FdOk(fat) && fds[ram].node == Ram(f) && fds[fat].node == Fat(p)
      ensures ok ==> StateOf(ram) == StateOf(fat) == State(old(Content(Ram(f))), 0)
      ensures !ok ==> forall i, j :: FIRST_FD <= i < j < MAX_FDS ==> old(fds[i]).used || old(fds[j]).used
    {
      hide TreeSound, CacheSound, Settled, Owned, IsStore, Handles, ZeroTail, ContentOf;
      ok, fat := false, ERR_NOSPACE;
      ram := Open(Ram(f), false);
      if ram == ERR_NOSPACE { return; }
      assert fds[ram] == Fd(true, Ram(f), 0);
      label ramOpen:
      fat := Open(Fat(p), false);
      if fat == ERR_NOSPACE {
        forall i | FIRST_FD <= i < MAX_FDS && i != ram
          ensures old(fds[i]).used
        {
          assert old@ramOpen(fds[..])[i] == old(fds[..])[i];
        }
        return;
      }
      assert fds[fat] == Fd(true, Fat(p), 0) && ram != fat;
      assert fds[ram] == old@ramOpen(fds[..])[fat := Fd(true, Fat(p), 0)][ram];
      ok := true;
    }

    /**
     * The same holds from the start: a file just made on either filesystem, opened, and used in the same way
     * returns what an empty abstract file returns. It does not come to that if the name is taken, no cluster could be
     * had for a longer directory, or there are not two free descriptors.
     */
    method RunFresh(d: Ptr, name: seq<byte>, ops: seq<Op>)
      returns (started: bool, onRam: seq<Result>, onFat: seq<Result>, refused: bool, p: Ptr)
      requires dr.Valid() && d in dr.nodes && 0 !in name
      requires fds.Length == MAX_FDS && AllInBounds(State([], 0), ops)
      modifies fds, dr, dr.vol, dr.vol.buf
      ensures !started ==>
        || !old(dr.nodes)[d].isDir || NameTaken(dr.nodes, d, name) || (d in dr.nodes && NoSpace(dr, d, false))
        || forall i, j :: FIRST_FD <= i < j < MAX_FDS ==> old(fds[i]).used || old(fds[j]).used
      ensures started && !refused ==> onRam == onFat && onRam == RunResults(State([], 0), ops)
      ensures started && refused ==> CutShort(onRam, ops) || CutShort(onFat, ops)
      ensures started ==> p in dr.nodes
      ensures started && AllGranted(ops) ==> (refused <==> !AllWithin(State([], 0), ops, Min(MAX_FILESIZE, dr.Room(p))))
    {
      hide Driver.Valid, Created, NoSpace, NameTaken, NameWasFree, SpaceDecides, Showable, HasRoom, Grew, AllInBounds,
           RunResults, CutShort, NodeOk, NodeThere, Content,
           FilesKept, AllReferred, CreateLedger, AllWithin, Driver.Room;
      started, onRam, onFat, refused := false, [], [], false;
      var f := new RamFile();
      p := Create(dr, d, name, false);
      GrewHead(old(dr.nodes), dr.nodes, d);
      if p == NULL { return; }
      FreshFatFile(d, p, name);
      FreshRamFile(f);
      var ram, fat;
      started, ram, fat := OpenBoth(f, p);
      if started { onRam, onFat, refused := RunBoth(ram, fat, ops); }
    }
  }
}
