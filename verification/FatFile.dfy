/** Reading and writing the bytes of a cluster chain. */
module FatFile {
  import opened Bytes
  import opened FileSpec
  import opened FatVolume
  import opened FatTable
  import opened FatChains

  /** The two states differ only in chain `h` and in clusters that were free. */
  ghost predicate OnlyChain(h: nat, data: seq<seq<byte>>, l: Ledger, data': seq<seq<byte>>, l': Ledger) {
    && |data'| == |data|
    && l'.reserved == l.reserved
    && l'.chains.Keys == l.chains.Keys + {h}
    && (forall k :: k in l.chains && k != h ==> l'.chains[k] == l.chains[k])
    && (forall c :: c in l.owner ==> c in l'.owner && l'.owner[c] == l.owner[c])
    && (forall c: nat :: c < |data| && c in l.owner && l.owner[c] != h ==> data'[c] == data[c])
    && (forall c: nat :: c < |data| && c in l.reserved ==> data'[c] == data[c])
  }

  /** The bytes of the chain that starts at `h`; a file without a cluster has none. */
  ghost function FileBytes(data: seq<seq<byte>>, l: Ledger, h: nat): seq<byte> {
    if h in l.chains then ChainBytes(data, l.chains[h]) else []
  }

  ghost predicate Sound(vol: Volume, l: Ledger)
    reads vol
  {
    vol.Valid() && Owned(vol.Fat(), l)
  }

  lemma OnlyChainTrans(h: nat, d0: seq<seq<byte>>, l0: Ledger, d1: seq<seq<byte>>, l1: Ledger, d2: seq<seq<byte>>, l2: Ledger)
    requires OnlyChain(h, d0, l0, d1, l1) && OnlyChain(h, d1, l1, d2, l2)
    ensures OnlyChain(h, d0, l0, d2, l2)
  {}

  lemma SameChain(h: nat, data: seq<seq<byte>>, l: Ledger)
    requires h in l.chains
    ensures OnlyChain(h, data, l, data, l)
  {}

  /** Nothing but zero bytes was added at the end. */
  ghost predicate Grown(before: seq<byte>, after: seq<byte>) {
    Written(before, after, 0, [])
  }

  /** `bs` was written at `offset` over `before`, and the end moved out by zero bytes as needed. */
  ghost predicate Written(before: seq<byte>, after: seq<byte>, offset: nat, bs: seq<byte>) {
    && offset + |bs| <= |after| && |before| <= |after|
    && forall i :: 0 <= i < |after| ==>
         after[i] == if offset <= i < offset + |bs| then bs[i - offset]
                     else if i < |before| then before[i] else 0
  }

  lemma WrittenMore(before: seq<byte>, mid: seq<byte>, after: seq<byte>, offset: nat, src: seq<byte>, i: nat, n: nat)
    requires i + n <= |src| && offset + i + n <= |mid|
    requires Written(before, mid, offset, src[..i])
    requires after == Splice(mid, offset + i, src[i..][..n])
    ensures Written(before, after, offset, src[..i + n])
  {}

  lemma WrittenThenGrown(before: seq<byte>, mid: seq<byte>, after: seq<byte>, offset: nat, bs: seq<byte>)
    requires Written(before, mid, offset, bs) && Grown(mid, after)
    ensures Written(before, after, offset, bs)
  {}

  lemma ExtendedOnlyChain(fat: seq<nat>, data: seq<seq<byte>>, l: Ledger, h: nat, c: nat, z: seq<byte>)
    requires Owned(fat, l) && h in l.chains && |data| == |fat| && 2 <= c < |fat| && fat[c] == FREE
    ensures OnlyChain(h, data, l, data[c := z], ExtendChain(l, h, c))
    ensures FileBytes(data[c := z], ExtendChain(l, h, c), h) == FileBytes(data, l, h) + z
    ensures forall k :: 0 <= k <= |l.chains[h]| ==>
      ChainBytes(data[c := z], (l.chains[h] + [c])[..k]) == ChainBytes(data, l.chains[h][..k])
  {
    hide Owned, ChainBytes;
    FreeIsUnowned(fat, l, c);
    ChainBytesSnoc(data[c := z], l.chains[h], c);
    ChainBytesFrame(data, data[c := z], l.chains[h]);
    forall k | 0 <= k <= |l.chains[h]|
      ensures ChainBytes(data[c := z], (l.chains[h] + [c])[..k]) == ChainBytes(data, l.chains[h][..k])
    {
      assert (l.chains[h] + [c])[..k] == l.chains[h][..k];
      ChainBytesFrame(data, data[c := z], l.chains[h][..k]);
    }
  }

  lemma NextBase(vol: Volume, l: Ledger, h: nat, k: nat)
    requires Sound(vol, l) && h in l.chains && k < |l.chains[h]|
    ensures |ChainBytes(vol.Data(), l.chains[h][..k + 1])| ==
            |ChainBytes(vol.Data(), l.chains[h][..k])| + vol.g.BytesPerCluster()
    ensures |ChainBytes(vol.Data(), l.chains[h][..k + 1])| <= |FileBytes(vol.Data(), l, h)|
    ensures vol.g.Cluster(l.chains[h][k])
  {
    ChainLink(vol.Fat(), l.chains[h], k);
    ChainBytesAt(vol.Data(), l.chains[h], k);
  }

  /** Byte `pos` of chain `h` lies in its `k`-th cluster, which starts at byte `base`. */
  ghost predicate Placed(vol: Volume, l: Ledger, h: nat, k: nat, cluster: nat, base: nat)
    reads vol
  {
    && h in l.chains && k < |l.chains[h]|
    && l.chains[h][k] == cluster
    && base == |ChainBytes(vol.Data(), l.chains[h][..k])|
  }

  /** A chain grows by no more clusters than it takes to hold `end` bytes. */
  predicate NoWaste(len: nat, len': nat, end: nat, bpc: nat) { len' <= len || len' < end + bpc }

  lemma LastPlace(vol: Volume, l: Ledger, h: nat, k: nat, base: nat)
    requires Sound(vol, l) && h in l.chains && k + 1 == |l.chains[h]| && base == |ChainBytes(vol.Data(), l.chains[h][..k])|
    ensures |FileBytes(vol.Data(), l, h)| == base + vol.g.BytesPerCluster()
  {
    NextBase(vol, l, h, k);
    assert l.chains[h][..k + 1] == l.chains[h];
  }

  /**
   * The cluster after the `k`-th of chain `h`, appending a zeroed one when the `k`-th is the last;
   * 0 when that needs a cluster and none is free.
   */
  method NextOrExtend(vol: Volume, cluster: nat, ghost l: Ledger, ghost h: nat, ghost k: nat, ghost base: nat)
    returns (next: nat, ghost l': Ledger)
    requires Sound(vol, l) && Placed(vol, l, h, k, cluster, base)
    modifies vol`disk, vol.buf
    ensures Sound(vol, l') && vol.Untouched() == old(vol.Untouched())
    ensures OnlyChain(h, old(vol.Data()), l, vol.Data(), l') && l.chains[h] <= l'.chains[h]
    ensures next == 0 ==> l' == l && vol.disk == old(vol.disk) && NoneFree(vol)
    ensures next == 0 ==> |FileBytes(vol.Data(), l', h)| == base + vol.g.BytesPerCluster()
    ensures next != 0 ==> Placed(vol, l', h, k + 1, next, base + vol.g.BytesPerCluster())
    ensures Grown(FileBytes(old(vol.Data()), l, h), FileBytes(vol.Data(), l', h))
    ensures k + 1 < |l.chains[h]| ==> next != 0 && l' == l && vol.disk == old(vol.disk)
    ensures NoWaste(|FileBytes(old(vol.Data()), l, h)|, |FileBytes(vol.Data(), l', h)|, base + vol.g.BytesPerCluster() + 1, vol.g.BytesPerCluster())
    ensures next != 0 && k + 1 == |l.chains[h]| ==>
      l' == ExtendChain(l, h, next) &&
      FileBytes(vol.Data(), l', h) == FileBytes(old(vol.Data()), l, h) + Zeros(vol.g.BytesPerCluster())
  {
    hide FatOf, TopOf, RestOf, DataOf, ChainBytes, OnlyChain, OwnerMatches, UsedExactly;
    SameChain(h, vol.Data(), l);
    ghost var ch, fat: seq<nat> := l.chains[h], vol.Fat();
    ChainLink(fat, ch, k);
    if k + 1 < |ch| { ChainLink(fat, ch, k + 1); }
    NextBase(vol, l, h, k);
    next := vol.FatGet(cluster);
    if next < EOC { return next, l; }
    LastPlace(vol, l, h, k, base);
    next := vol.FatAppend(cluster);
    if next == 0 { return 0, l; }
    l' := ExtendChain(l, h, next);
    ExtendChainOwned(fat, l, h, cluster, next, vol.Fat());
    ExtendedOnlyChain(fat, old(vol.Data()), l, h, next, Zeros(vol.g.BytesPerCluster()));
  }

  ghost predicate NoneFree(vol: Volume)
    reads vol
  {
    forall c: nat :: vol.g.Cluster(c) ==> vol.Fat()[c] != FREE
  }

  /** Copies as much of `src` as fits into one cluster from `clusOff` on. */
  method WriteCluster(vol: Volume, cluster: nat, clusOff: nat, src: seq<byte>) returns (n: nat)
    requires vol.Valid() && vol.g.Cluster(cluster) && clusOff < vol.g.BytesPerCluster()
    modifies vol`disk, vol.buf
    ensures vol.Valid() && vol.Fat() == old(vol.Fat()) && vol.Untouched() == old(vol.Untouched())
    ensures n == Min(|src|, vol.g.BytesPerCluster() - clusOff)
    ensures vol.Data() == old(vol.Data())[cluster := Splice(old(vol.Data())[cluster], clusOff, src[..n])]
  {
    hide FatOf, TopOf, RestOf, DataOf;
    n := 0;
    var sectorIdx: nat, sectorOff: nat := clusOff / 512, clusOff % 512;
    assert Splice(vol.Data()[cluster], clusOff, src[..0]) == vol.Data()[cluster];
    while sectorIdx < vol.g.spc && n < |src|
      invariant vol.Valid() && vol.Fat() == old(vol.Fat()) && vol.Untouched() == old(vol.Untouched())
      invariant n <= |src| && clusOff + n <= vol.g.BytesPerCluster()
      invariant sectorIdx <= vol.g.spc && sectorOff < 512
      invariant n < |src| ==> clusOff + n == sectorIdx * 512 + sectorOff && (sectorIdx == vol.g.spc ==> sectorOff == 0)
      invariant vol.Data() == old(vol.Data())[cluster := Splice(old(vol.Data())[cluster], clusOff, src[..n])]
    {
      var copyN := Min(512 - sectorOff, |src| - n);
      vol.PutBytes(cluster, sectorIdx, sectorOff, src[n..n + copyN]);
      SpliceTwice(old(vol.Data())[cluster], clusOff, src[..n], src[n..n + copyN]);
      assert src[..n] + src[n..n + copyN] == src[..n + copyN];
      n := n + copyN;
      sectorOff, sectorIdx := 0, sectorIdx + 1;
    }
  }

  lemma WrittenOnlyChain(fat: seq<nat>, data: seq<seq<byte>>, l: Ledger, h: nat, k: nat, base: nat, pos: nat,
                         bs: seq<byte>, data': seq<seq<byte>>)
    requires Owned(fat, l) && h in l.chains && k < |l.chains[h]| && |data| == |fat|
    requires base == |ChainBytes(data, l.chains[h][..k])| <= pos
    requires var c := l.chains[h][k];
      c < |data| && pos - base + |bs| <= |data[c]| && data' == data[c := Splice(data[c], pos - base, bs)]
    ensures OnlyChain(h, data, l, data', l)
    ensures pos + |bs| <= |FileBytes(data, l, h)|
    ensures FileBytes(data', l, h) == Splice(FileBytes(data, l, h), pos, bs)
    ensures ChainBytes(data', l.chains[h][..k]) == ChainBytes(data, l.chains[h][..k])
  {
    hide ChainBytes, Splice, OnlyChain, Distinct;
    ChainDistinct(fat, l.chains[h]);
    ChainBytesSplice(data, l.chains[h], k, pos - base, bs);
    ClusterInChain(fat, data, l, h, k, Splice(data[l.chains[h][k]], pos - base, bs));
  }

  /** Changing a cluster of a chain changes no other chain's. */
  lemma ClusterInChain(fat: seq<nat>, data: seq<seq<byte>>, l: Ledger, h: nat, k: nat, b: seq<byte>)
    requires Owned(fat, l) && h in l.chains && k < |l.chains[h]| && |data| == |fat| && l.chains[h][k] < |data|
    ensures OnlyChain(h, data, l, data[l.chains[h][k] := b], l)
  {
    assert l.chains[h][k] in l.chains[h];
  }

  /**
   * Walks to the cluster holding byte `offset`, appending zeroed clusters on the way.
   * `cluster` is 0 when that needs more clusters than are free.
   */
  method SeekCluster(vol: Volume, h: nat, offset: nat, ghost l: Ledger)
    returns (cluster: nat, base: nat, ghost k: nat, ghost l': Ledger)
    requires Sound(vol, l) && h in l.chains
    modifies vol`disk, vol.buf
    ensures Sound(vol, l') && vol.Untouched() == old(vol.Untouched())
    ensures OnlyChain(h, old(vol.Data()), l, vol.Data(), l') && l.chains[h] <= l'.chains[h]
    ensures Grown(FileBytes(old(vol.Data()), l, h), FileBytes(vol.Data(), l', h))
    ensures cluster == 0 ==> NoneFree(vol) && |FileBytes(vol.Data(), l', h)| <= offset
    ensures cluster != 0 ==>
      Placed(vol, l', h, k, cluster, base) && base <= offset < base + vol.g.BytesPerCluster()
    ensures NoWaste(|FileBytes(old(vol.Data()), l, h)|, |FileBytes(vol.Data(), l', h)|, offset + 1, vol.g.BytesPerCluster())
  {
    cluster, base, k, l' := h, 0, 0, l;
    ghost var data0 := vol.Data();
    while base + vol.g.BytesPerCluster() <= offset
      invariant Sound(vol, l') && vol.Untouched() == old(vol.Untouched())
      invariant OnlyChain(h, data0, l, vol.Data(), l') && l.chains[h] <= l'.chains[h]
      invariant Placed(vol, l', h, k, cluster, base) && base <= offset
      invariant Grown(FileBytes(data0, l, h), FileBytes(vol.Data(), l', h))
      invariant NoWaste(|FileBytes(data0, l, h)|, |FileBytes(vol.Data(), l', h)|, offset + 1, vol.g.BytesPerCluster())
      decreases offset - base
    {
      ghost var data1, l1 := vol.Data(), l';
      var next: nat;
      next, l' := NextOrExtend(vol, cluster, l1, h, k, base);
      OnlyChainTrans(h, data0, l, data1, l1, vol.Data(), l');
      WrittenThenGrown(FileBytes(data0, l, h), FileBytes(data1, l1, h), FileBytes(vol.Data(), l', h), 0, []);
      if next == 0 { return 0, base, k, l'; }
      cluster, base, k := next, base + vol.g.BytesPerCluster(), k + 1;
    }
    ChainLink(vol.Fat(), l'.chains[h], k);
  }

  /** Writes what fits into the `k`-th cluster of chain `h`. */
  method WriteAt(vol: Volume, cluster: nat, base: nat, pos: nat, src: seq<byte>, ghost l: Ledger, ghost h: nat, ghost k: nat)
    returns (n: nat)
    requires Sound(vol, l) && Placed(vol, l, h, k, cluster, base) && base <= pos < base + vol.g.BytesPerCluster()
    modifies vol`disk, vol.buf
    ensures Sound(vol, l) && vol.Untouched() == old(vol.Untouched())
    ensures OnlyChain(h, old(vol.Data()), l, vol.Data(), l)
    ensures Placed(vol, l, h, k, cluster, base)
    ensures n == Min(|src|, base + vol.g.BytesPerCluster() - pos)
    ensures pos + n <= |FileBytes(old(vol.Data()), l, h)|
    ensures FileBytes(vol.Data(), l, h) == Splice(FileBytes(old(vol.Data()), l, h), pos, src[..n])
  {
    hide FatOf, TopOf, RestOf, DataOf, ChainBytes, OnlyChain;
    ChainLink(vol.Fat(), l.chains[h], k);
    n := WriteCluster(vol, cluster, pos - base, src);
    WrittenOnlyChain(vol.Fat(), old(vol.Data()), l, h, k, base, pos, src[..n], vol.Data());
  }

  /** How far a write of `src` at `offset` into chain `h` has come since the volume held `data0` and `l0`. */
  ghost predicate Progress(vol: Volume, data0: seq<seq<byte>>, l0: Ledger, l: Ledger, h: nat, offset: nat, done: seq<byte>)
    reads vol
  {
    && Sound(vol, l)
    && h in l0.chains
    && OnlyChain(h, data0, l0, vol.Data(), l) && l0.chains[h] <= l.chains[h]
    && Written(FileBytes(data0, l0, h), FileBytes(vol.Data(), l, h), offset, done)
  }

  method WriteMore(vol: Volume, cluster: nat, base: nat, offset: nat, src: seq<byte>, written: nat,
                   ghost data0: seq<seq<byte>>, ghost l0: Ledger, ghost l: Ledger, ghost h: nat, ghost k: nat)
    returns (total: nat, ghost done: seq<byte>)
    requires written <= |src| && Progress(vol, data0, l0, l, h, offset, src[..written])
    requires Placed(vol, l, h, k, cluster, base) && base <= offset + written < base + vol.g.BytesPerCluster()
    modifies vol`disk, vol.buf
    ensures total == written + Min(|src| - written, base + vol.g.BytesPerCluster() - (offset + written))
    ensures done == src[..total]
    ensures Progress(vol, data0, l0, l, h, offset, done) && vol.Untouched() == old(vol.Untouched())
    ensures Placed(vol, l, h, k, cluster, base)
    ensures |FileBytes(vol.Data(), l, h)| == |FileBytes(old(vol.Data()), l, h)|
  {
    hide FatOf, TopOf, RestOf, DataOf, ChainBytes, OnlyChain, Owned, Written;
    ghost var data1 := vol.Data();
    var n := WriteAt(vol, cluster, base, offset + written, src[written..], l, h, k);
    total := written + n;
    done := src[..total];
    OnlyChainTrans(h, data0, l0, data1, l, vol.Data(), l);
    WrittenMore(FileBytes(data0, l0, h), FileBytes(data1, l, h), FileBytes(vol.Data(), l, h), offset, src, written, n);
  }

  method Advance(vol: Volume, cluster: nat, ghost base: nat, ghost offset: nat, ghost done: seq<byte>,
                 ghost data0: seq<seq<byte>>, ghost l0: Ledger, ghost l: Ledger, ghost h: nat, ghost k: nat)
    returns (next: nat, ghost l': Ledger)
    requires Progress(vol, data0, l0, l, h, offset, done) && Placed(vol, l, h, k, cluster, base)
    modifies vol`disk, vol.buf
    ensures Progress(vol, data0, l0, l', h, offset, done) && vol.Untouched() == old(vol.Untouched())
    ensures next == 0 ==> NoneFree(vol) && |FileBytes(vol.Data(), l', h)| == base + vol.g.BytesPerCluster()
    ensures next != 0 ==> Placed(vol, l', h, k + 1, next, base + vol.g.BytesPerCluster())
    ensures NoWaste(|FileBytes(old(vol.Data()), l, h)|, |FileBytes(vol.Data(), l', h)|, base + vol.g.BytesPerCluster() + 1, vol.g.BytesPerCluster())
  {
    hide FatOf, TopOf, RestOf, DataOf, ChainBytes, OnlyChain, Owned, Written;
    ghost var data1 := vol.Data();
    next, l' := NextOrExtend(vol, cluster, l, h, k, base);
    OnlyChainTrans(h, data0, l0, data1, l, vol.Data(), l');
    WrittenThenGrown(FileBytes(data0, l0, h), FileBytes(data1, l, h), FileBytes(vol.Data(), l', h), offset, done);
  }

  /** The writing loop, from a placed position on. */
  method WriteFrom(vol: Volume, cluster0: nat, base0: nat, offset: nat, src: seq<byte>,
                   ghost data0: seq<seq<byte>>, ghost l0: Ledger, ghost l: Ledger, ghost h: nat, ghost k0: nat)
    returns (written: nat, ghost done: seq<byte>, ghost l': Ledger)
    requires Progress(vol, data0, l0, l, h, offset, []) && src != []
    requires NoWaste(|FileBytes(data0, l0, h)|, |FileBytes(vol.Data(), l, h)|, offset + |src|, vol.g.BytesPerCluster())
    requires Placed(vol, l, h, k0, cluster0, base0) && base0 <= offset < base0 + vol.g.BytesPerCluster()
    modifies vol`disk, vol.buf
    ensures Progress(vol, data0, l0, l', h, offset, done) && vol.Untouched() == old(vol.Untouched())
    ensures NoWaste(|FileBytes(data0, l0, h)|, |FileBytes(vol.Data(), l', h)|, offset + |src|, vol.g.BytesPerCluster())
    ensures 0 < written <= |src| && done == src[..written]
    ensures written < |src| ==> NoneFree(vol) && |FileBytes(vol.Data(), l', h)| == offset + written
  {
    hide FatOf, TopOf, RestOf, DataOf, ChainBytes, OnlyChain, Owned, Written;
    var cluster: nat, base: nat := cluster0, base0;
    ghost var k: nat := k0;
    written, done, l' := 0, [], l;
    while written < |src|
      invariant written <= |src| && done == src[..written] && vol.Untouched() == old(vol.Untouched())
      invariant Progress(vol, data0, l0, l', h, offset, done)
      invariant NoWaste(|FileBytes(data0, l0, h)|, |FileBytes(vol.Data(), l', h)|, offset + |src|, vol.g.BytesPerCluster())
      invariant written < |src| ==>
        Placed(vol, l', h, k, cluster, base) && base <= offset + written < base + vol.g.BytesPerCluster()
    {
      written, done := WriteMore(vol, cluster, base, offset, src, written, data0, l0, l', h, k);
      if written < |src| {
        var next: nat;
        next, l' := Advance(vol, cluster, base, offset, done, data0, l0, l', h, k);
        if next == 0 { return; }
        cluster, base, k := next, base + vol.g.BytesPerCluster(), k + 1;
      }
    }
  }

  /** How many of `count` bytes go in at `offset` below `len`. */
  function Fitting(len: nat, offset: nat, count: nat): nat { if len <= offset then 0 else Min(count, len - offset) }

  /**
   * Writes `src` into chain `h` from byte `offset` on, as much of it as the chain can hold in the end. Bytes are left
   * out only when no cluster is free any more, and the old bytes beyond the written ones are still there.
   */
  method WriteChain(vol: Volume, h: nat, offset: nat, src: seq<byte>, ghost l: Ledger)
    returns (written: nat, ghost l': Ledger)
    requires Sound(vol, l) && h in l.chains && src != []
    modifies vol`disk, vol.buf
    ensures Sound(vol, l') && vol.Untouched() == old(vol.Untouched())
    ensures OnlyChain(h, old(vol.Data()), l, vol.Data(), l') && l.chains[h] <= l'.chains[h]
    ensures written == Fitting(|FileBytes(vol.Data(), l', h)|, offset, |src|) && (written < |src| ==> NoneFree(vol))
    ensures NoWaste(|FileBytes(old(vol.Data()), l, h)|, |FileBytes(vol.Data(), l', h)|, offset + |src|, vol.g.BytesPerCluster())
    ensures written == 0 ==> Grown(FileBytes(old(vol.Data()), l, h), FileBytes(vol.Data(), l', h))
    ensures written > 0 ==>
      Written(FileBytes(old(vol.Data()), l, h), FileBytes(vol.Data(), l', h), offset, src[..written])
  {
    hide FatOf, TopOf, RestOf, DataOf, ChainBytes, OnlyChain, Owned;
    ghost var data0 := vol.Data();
    var cluster: nat, base: nat;
    ghost var k: nat, done: seq<byte>;
    cluster, base, k, l' := SeekCluster(vol, h, offset, l);
    if cluster == 0 { return 0, l'; }
    NextBase(vol, l', h, k);
    written, done, l' := WriteFrom(vol, cluster, base, offset, src, data0, l, l', h, k);
  }

  /** `out` is what `s` holds from byte `at` on. */
  ghost predicate PartOf(s: seq<byte>, at: nat, out: seq<byte>) {
    at + |out| <= |s| && forall i :: 0 <= i < |out| ==> out[i] == s[at + i]
  }

  lemma PartMore(s: seq<byte>, at: nat, out: seq<byte>, more: seq<byte>)
    requires PartOf(s, at, out) && PartOf(s, at + |out|, more)
    ensures PartOf(s, at, out + more)
  {
    forall i | |out| <= i < |out + more|
      ensures (out + more)[i] == s[at + i]
    {
      assert (out + more)[i] == more[i - |out|];
    }
  }

  lemma SectorSlice(g: Geometry, d: Disk, c: nat, s: nat, from: nat, n: nat)
    requires g.Fits(d) && g.Cluster(c) && s < g.spc && from + n <= 512 && g.Lba(c) + s < |d|
    ensures PartOf(DataOf(g, d)[c], s * 512 + from, d[g.Lba(c) + s][from..from + n])
  {
    DataAt(g, d, c);
    LbaBounds(g, d, c);
  }

  /** Delivers up to `count` bytes of one cluster, sector by sector. */
  method ReadCluster(vol: Volume, cluster: nat, clusOff: nat, count: nat) returns (out: seq<byte>)
    requires vol.Valid() && vol.g.Cluster(cluster) && clusOff < vol.g.BytesPerCluster()
    modifies vol.buf
    ensures |out| == Min(count, vol.g.BytesPerCluster() - clusOff)
    ensures PartOf(vol.Data()[cluster], clusOff, out)
  {
    out := [];
    ghost var bytes := vol.Data()[cluster];
    LbaBounds(vol.g, vol.disk, cluster);
    var s: nat := 0;
    while s < vol.g.spc && |out| < count
      invariant s <= vol.g.spc && |out| <= count && clusOff + |out| <= vol.g.BytesPerCluster()
      invariant |out| < count ==> s * 512 <= clusOff + |out|
      invariant |out| > 0 && |out| < count ==> clusOff + |out| == s * 512
      invariant PartOf(bytes, clusOff, out)
    {
      var at: nat := clusOff + |out|;
      if at < s * 512 + 512 {
        vol.ReadSector(vol.g.Lba(cluster) + s);
        var from: nat := if at > s * 512 then at - s * 512 else 0;
        var n := Min(count - |out|, 512 - from);
        SectorSlice(vol.g, vol.disk, cluster, s, from, n);
        var more := vol.buf[..][from..from + n];
        PartMore(bytes, clusOff, out, more);
        out := out + more;
      }
      s := s + 1;
    }
  }

  lemma ChainPart(data: seq<seq<byte>>, ch: seq<nat>, k: nat, base: nat, pos: nat, bs: seq<byte>)
    requires k < |ch| && base == |ChainBytes(data, ch[..k])| <= pos && PartOf(At(data, ch[k]), pos - base, bs)
    ensures PartOf(ChainBytes(data, ch), pos, bs)
  {
    ChainBytesAt(data, ch, k);
  }

  method ReadAt(vol: Volume, cluster: nat, skipped: nat, pos: nat, count: nat, ghost l: Ledger, ghost h: nat, ghost k: nat)
    returns (more: seq<byte>)
    requires Sound(vol, l) && h in l.chains && k < |l.chains[h]| && ReadPlace(vol, l, h, k, cluster, skipped)
    requires skipped <= pos < skipped + vol.g.BytesPerCluster()
    modifies vol.buf
    ensures |more| == Min(count, skipped + vol.g.BytesPerCluster() - pos)
    ensures PartOf(FileBytes(vol.Data(), l, h), pos, more)
  {
    ChainLink(vol.Fat(), l.chains[h], k);
    more := ReadCluster(vol, cluster, pos - skipped, count);
    ChainPart(vol.Data(), l.chains[h], k, skipped, pos, more);
  }

  lemma ReadStarts(vol: Volume, l: Ledger, h: nat)
    requires Sound(vol, l) && h in l.chains
    ensures ReadPlace(vol, l, h, 0, h, 0)
  {
    ChainLink(vol.Fat(), l.chains[h], 0);
  }

  /** `count` bytes of the chain from `offset` on; `first` is 0 for a file without a cluster. */
  method ReadChain(vol: Volume, first: nat, offset: nat, count: nat, ghost l: Ledger) returns (out: seq<byte>)
    requires Sound(vol, l) && (first == 0 || first in l.chains)
    requires offset + count <= |FileBytes(vol.Data(), l, first)|
    modifies vol.buf
    ensures out == FileBytes(vol.Data(), l, first)[offset..offset + count]
  {
    hide FatOf, TopOf, RestOf, DataOf, Owned, ChainBytes;
    out := [];
    var cluster: nat, skipped: nat := first, 0;
    ghost var k: nat, bytes: seq<byte> := 0, FileBytes(vol.Data(), l, first);
    if first in l.chains { ReadStarts(vol, l, first); }
    while IsLink(cluster) && |out| < count
      invariant |out| <= count && PartOf(bytes, offset, out)
      invariant first in l.chains ==> ReadPlace(vol, l, first, k, cluster, skipped)
      invariant |out| < count ==> first in l.chains && skipped <= offset + |out|
      decreases if first in l.chains then |l.chains[first]| - k else 0
    {
      NextBase(vol, l, first, k);
      var pos: nat := offset + |out|;
      if skipped + vol.g.BytesPerCluster() > pos {
        var more := ReadAt(vol, cluster, skipped, pos, count - |out|, l, first, k);
        PartMore(bytes, offset, out, more);
        out := out + more;
      }
      cluster, skipped := ReadNext(vol, cluster, skipped, l, first, k);
      k := k + 1;
    }
    if first in l.chains { assert l.chains[first][..|l.chains[first]|] == l.chains[first]; }
  }

  /** The reading loop stands at the `k`-th cluster, or past the last one. */
  ghost predicate ReadPlace(vol: Volume, l: Ledger, h: nat, k: nat, cluster: nat, skipped: nat)
    requires h in l.chains
    reads vol
  {
    && k <= |l.chains[h]|
    && skipped == |ChainBytes(vol.Data(), l.chains[h][..k])|
    && if k < |l.chains[h]| then cluster == l.chains[h][k] && IsLink(cluster) else !IsLink(cluster)
  }

  method ReadNext(vol: Volume, cluster: nat, skipped: nat, ghost l: Ledger, ghost h: nat, ghost k: nat)
    returns (next: nat, skipped': nat)
    requires Sound(vol, l) && h in l.chains && k < |l.chains[h]| && ReadPlace(vol, l, h, k, cluster, skipped)
    modifies vol.buf
    ensures ReadPlace(vol, l, h, k + 1, next, skipped')
    ensures skipped' == skipped + vol.g.BytesPerCluster()
  {
    NextBase(vol, l, h, k);
    ChainLink(vol.Fat(), l.chains[h], k);
    if k + 1 < |l.chains[h]| { ChainLink(vol.Fat(), l.chains[h], k + 1); }
    skipped' := skipped + vol.g.BytesPerCluster();
    next := vol.FatGet(cluster);
  }
}
