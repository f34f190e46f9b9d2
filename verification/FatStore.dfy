/** The bytes of all chains as one map, and where an entry's place in a directory lies on disk. */
module FatStore {
  import opened Bytes
  import opened FatVolume
  import opened FatTable
  import opened FatChains
  import opened FatFile
  import opened FatNames
  import opened FatEntries
  import opened FatTree

  /** The bytes of every chain, by its first cluster. */
  ghost function StoreOf(data: seq<seq<byte>>, chains: map<nat, seq<nat>>): (store: map<nat, seq<byte>>)
    ensures store.Keys == chains.Keys
  {
    map h | h in chains :: ChainBytes(data, chains[h])
  }

  ghost predicate IsStore(vol: Volume, l: Ledger, store: map<nat, seq<byte>>)
    reads vol
  {
    store == StoreOf(vol.Data(), l.chains)
  }

  lemma StoreAt(vol: Volume, l: Ledger, store: map<nat, seq<byte>>, h: nat)
    requires IsStore(vol, l, store) && h in l.chains
    ensures h in store && store[h] == FileBytes(vol.Data(), l, h)
  {}

  /** Changing one chain changes its bytes in the map and no others. */
  lemma StoreStep(fat: seq<nat>, h: nat, data: seq<seq<byte>>, l: Ledger, data': seq<seq<byte>>, l': Ledger)
    requires Owned(fat, l) && |data| == |fat| && OnlyChain(h, data, l, data', l')
    ensures StoreOf(data', l'.chains) == StoreOf(data, l.chains)[h := FileBytes(data', l', h)]
  {
    hide Owned, ChainBytes;
    forall k | k in l.chains && k != h
      ensures ChainBytes(data', l.chains[k]) == ChainBytes(data, l.chains[k])
    {
      ChainElsewhere(fat, h, data, l, data', l', k);
    }
  }

  lemma ChainElsewhere(fat: seq<nat>, h: nat, data: seq<seq<byte>>, l: Ledger, data': seq<seq<byte>>, l': Ledger, k: nat)
    requires Owned(fat, l) && |data| == |fat| && OnlyChain(h, data, l, data', l') && k in l.chains && k != h
    ensures ChainBytes(data', l.chains[k]) == ChainBytes(data, l.chains[k])
  {
    forall c | c in l.chains[k]
      ensures At(data', c) == At(data, c)
    {
      assert c in l.owner && l.owner[c] == k;
    }
    ChainBytesFrame(data, data', l.chains[k]);
  }

  lemma StoreNew(fat: seq<nat>, data: seq<seq<byte>>, l: Ledger, c: nat, z: seq<byte>)
    requires Owned(fat, l) && |data| == |fat| && 2 <= c < |fat| && fat[c] == FREE
    ensures StoreOf(data[c := z], NewChain(l, c).chains) == StoreOf(data, l.chains)[c := z]
    ensures c !in l.chains
  {
    FreeIsUnowned(fat, l, c);
    forall k | k in l.chains
      ensures ChainBytes(data[c := z], l.chains[k]) == ChainBytes(data, l.chains[k])
    {
      ChainBytesFrame(data, data[c := z], l.chains[k]);
    }
    assert ChainBytes(data[c := z], [c]) == z by {
      assert [c][1..] == [];
      assert z + [] == z;
    }
  }

  lemma StoreDropped(data: seq<seq<byte>>, l: Ledger, h: nat)
    requires h in l.chains
    ensures StoreOf(data, DropChain(l, h).chains) == StoreOf(data, l.chains) - {h}
  {}

  // ---- Where a slot lies

  /** Where the `k`-th cluster of a chain starts. */
  function Base(bpc: nat, k: nat): nat { if k == 0 then 0 else bpc + Base(bpc, k - 1) }

  lemma {:induction false} BaseOfPrefix(vol: Volume, l: Ledger, h: nat, k: nat)
    requires Sound(vol, l) && h in l.chains && k <= |l.chains[h]|
    ensures |ChainBytes(vol.Data(), l.chains[h][..k])| == Base(vol.g.BytesPerCluster(), k)
  {
    if k > 0 {
      BaseOfPrefix(vol, l, h, k - 1);
      NextBase(vol, l, h, k - 1);
    }
  }

  lemma WholeChain(vol: Volume, l: Ledger, h: nat)
    requires Sound(vol, l) && h in l.chains
    ensures |FileBytes(vol.Data(), l, h)| == Base(vol.g.BytesPerCluster(), |l.chains[h]|)
  {
    BaseOfPrefix(vol, l, h, |l.chains[h]|);
    assert l.chains[h][..|l.chains[h]|] == l.chains[h];
  }

  /** `a % b`, unfolded one subtraction at a time. */
  function Rem(a: nat, b: nat): (r: nat)
    requires b > 0
    ensures r < b
  {
    if a < b then a else Rem(a - b, b)
  }

  lemma {:induction false} RemShift(a: nat, b: nat, m: nat)
    requires b > 0
    ensures Rem(a + m * b, b) == Rem(a, b)
  {
    if m > 0 {
      assert m * b == b + (m - 1) * b;
      RemShift(a, b, m - 1);
    }
  }

  /** How many clusters of bytes 32 bits count. */
  function ClustersIn32(spc: nat): (m: nat)
    requires spc in {1, 2, 4, 8, 16, 32, 64, 128}
    ensures m * (spc * 512) == TWO32
  {
    if spc == 1 then 0x80_0000 else if spc == 2 then 0x40_0000 else if spc == 4 then 0x20_0000
    else if spc == 8 then 0x10_0000 else if spc == 16 then 0x8_0000 else if spc == 32 then 0x4_0000
    else if spc == 64 then 0x2_0000 else 0x1_0000
  }

  lemma Wrapped(x: nat, b: nat, m: nat) returns (k: nat)
    requires m * b == TWO32
    ensures x == U32(x) + k * b
  {
    k := x / TWO32 * m;
    Associate(x / TWO32, m, b);
  }

  lemma Associate(j: nat, m: nat, b: nat)
    ensures (j * m) * b == j * (m * b)
  {}

  /** The offset a node keeps of its entry, in 32 bits. */
  function EntryOffset(g: Geometry, cluster: nat, off: nat): nat { U32(cluster * g.BytesPerCluster() + off) }

  /** A node's 32-bit entry offset wraps around, but still tells where in its cluster the entry is. */
  lemma OffsetRecovered(g: Geometry, cluster: nat, off: nat)
    requires g.spc in {1, 2, 4, 8, 16, 32, 64, 128} && off < g.BytesPerCluster()
    ensures Rem(EntryOffset(g, cluster, off), g.BytesPerCluster()) == off
  {
    hide U32;
    var bpc := g.spc * 512;
    var k := Wrapped(cluster * bpc + off, bpc, ClustersIn32(g.spc));
    RemShift(U32(cluster * bpc + off), bpc, k);
    RemShift(off, bpc, cluster);
  }

  /** Slot `s` is the 32 bytes at `off` of cluster `cluster`. */
  ghost predicate Lies(chains: map<nat, seq<nat>>, bpc: nat, s: Slot, cluster: nat, off: nat) {
    s.dir in chains && off < bpc && off % ENTRY == 0 && exists k: nat :: LiesAt(chains[s.dir], bpc, s.pos, cluster, off, k)
  }

  ghost predicate LiesAt(ch: seq<nat>, bpc: nat, pos: nat, cluster: nat, off: nat, k: nat) {
    k < |ch| && ch[k] == cluster && pos == Base(bpc, k) + off
  }

  /** A longer chain still has the slot where it was. */
  lemma LiesLonger(chains: map<nat, seq<nat>>, chains': map<nat, seq<nat>>, bpc: nat, s: Slot, cluster: nat, off: nat)
    requires Lies(chains, bpc, s, cluster, off) && s.dir in chains' && chains[s.dir] <= chains'[s.dir]
    ensures Lies(chains', bpc, s, cluster, off)
  {
    var k: nat :| LiesAt(chains[s.dir], bpc, s.pos, cluster, off, k);
    assert LiesAt(chains'[s.dir], bpc, s.pos, cluster, off, k);
  }

  lemma Aligned(a: nat, b: nat)
    requires a % ENTRY == 0 && b % ENTRY == 0
    ensures (a + b) % ENTRY == 0
  {}

  lemma {:induction false} BaseAligned(bpc: nat, k: nat)
    requires bpc % ENTRY == 0
    ensures Base(bpc, k) % ENTRY == 0
  {
    if k > 0 {
      BaseAligned(bpc, k - 1);
      Aligned(bpc, Base(bpc, k - 1));
    }
  }

  lemma BytesPerClusterAligned(g: Geometry)
    ensures g.BytesPerCluster() % ENTRY == 0
  {}

  lemma SlotBounds(vol: Volume, l: Ledger, s: Slot, cluster: nat, off: nat) returns (k: nat)
    requires Sound(vol, l) && Lies(l.chains, vol.g.BytesPerCluster(), s, cluster, off)
    ensures vol.g.Cluster(cluster)
    ensures LiesAt(l.chains[s.dir], vol.g.BytesPerCluster(), s.pos, cluster, off, k)
    ensures |ChainBytes(vol.Data(), l.chains[s.dir][..k])| == Base(vol.g.BytesPerCluster(), k)
    ensures EntryPos(FileBytes(vol.Data(), l, s.dir), s.pos)
  {
    hide Owned, ChainBytes, DataOf;
    var bpc := vol.g.BytesPerCluster();
    k :| LiesAt(l.chains[s.dir], bpc, s.pos, cluster, off, k);
    NextBase(vol, l, s.dir, k);
    BaseOfPrefix(vol, l, s.dir, k);
    BytesPerClusterAligned(vol.g);
    BaseAligned(bpc, k);
    Aligned(Base(bpc, k), off);
    Inward(bpc, off);
  }

  /** An entry that starts in a cluster ends in it. */
  lemma Inward(bpc: nat, off: nat)
    requires bpc % ENTRY == 0 && off % ENTRY == 0 && off < bpc
    ensures off + ENTRY <= bpc
  {}

  /** The store of a volume in which the entry of one slot was rewritten. */
  lemma SlotWritten(fat: seq<nat>, data: seq<seq<byte>>, l: Ledger, bpc: nat, s: Slot, cluster: nat, off: nat, e: Entry, k: nat)
    requires Owned(fat, l) && |data| == |fat| && s.dir in l.chains && LiesAt(l.chains[s.dir], bpc, s.pos, cluster, off, k)
    requires |ChainBytes(data, l.chains[s.dir][..k])| == Base(bpc, k)
    requires cluster < |data| && off + ENTRY <= |data[cluster]| && EntryPos(ChainBytes(data, l.chains[s.dir]), s.pos)
    ensures var data', b := data[cluster := Splice(data[cluster], off, e)], ChainBytes(data, l.chains[s.dir]);
      StoreOf(data', l.chains) == StoreOf(data, l.chains)[s.dir := SetEntry(b, s.pos, e)]
  {
    var data' := data[cluster := Splice(data[cluster], off, e)];
    WrittenOnlyChain(fat, data, l, s.dir, k, Base(bpc, k), s.pos, e, data');
    StoreStep(fat, s.dir, data, l, data', l);
  }

  /** The buffer holds the sector of the slot at `off` of `cluster`, but with `e` as the slot's entry. */
  ghost predicate Edited(vol: Volume, cluster: nat, off: nat, e: Entry)
    reads vol, vol.buf
  {
    && vol.Valid() && vol.g.Cluster(cluster) && vol.g.Lba(cluster) + off / 512 < |vol.disk| && off % 512 + ENTRY <= 512
    && vol.buf[..] == Splice(vol.disk[vol.g.Lba(cluster) + off / 512], off % 512, e)
  }

  lemma SectorInCluster(spc: nat, off: nat)
    requires off < spc * 512
    ensures off / 512 < spc && off / 512 * 512 + off % 512 == off
  {}

  /** The bytes of an entry lie in one sector. */
  lemma EntryInSector(off: nat, i: nat)
    requires off % ENTRY == 0 && i < ENTRY
    ensures off % 512 + ENTRY <= 512 && (off + i) / 512 == off / 512 && (off + i) % 512 == off % 512 + i
  {
    var m := off / ENTRY;
    var q, r := m / 16, m % 16;
    assert off == ENTRY * m && m == 16 * q + r;
    assert off == 512 * q + ENTRY * r && ENTRY * r + i < 512;
  }

  method WriteBack(vol: Volume, cluster: nat, off: nat, ghost e: Entry)
    requires Edited(vol, cluster, off, e) && off < vol.g.BytesPerCluster()
    modifies vol`disk
    ensures vol.Valid() && vol.Untouched() == old(vol.Untouched()) && vol.Fat() == old(vol.Fat())
    ensures off + ENTRY <= |old(vol.Data())[cluster]|
    ensures vol.Data() == old(vol.Data())[cluster := Splice(old(vol.Data())[cluster], off, e)]
  {
    hide Splice, DataOf, FatOf, TopOf;
    ghost var disk := vol.disk;
    SectorInCluster(vol.g.spc, off);
    vol.WriteSector(vol.g.Lba(cluster) + off / 512);
    SectorWritten(vol.g, disk, cluster, off / 512, off % 512, e, vol.disk);
  }

  /** Writes the sector buffer back; entry `e` is then in slot `s`. */
  method StoreEntry(vol: Volume, cluster: nat, off: nat, ghost e: Entry, ghost l: Ledger, ghost s: Slot, ghost t: Tree)
    requires Sound(vol, l) && IsStore(vol, l, t.store) && Lies(l.chains, vol.g.BytesPerCluster(), s, cluster, off)
    requires Inside(t, s) && Edited(vol, cluster, off, e)
    modifies vol`disk
    ensures Sound(vol, l) && vol.Untouched() == old(vol.Untouched()) && vol.Fat() == old(vol.Fat())
    ensures IsStore(vol, l, PutBytes(t, s, e))
  {
    ghost var k := SlotBounds(vol, l, s, cluster, off);
    ghost var data := vol.Data();
    WriteBack(vol, cluster, off, e);
    SlotWritten(vol.Fat(), data, l, vol.g.BytesPerCluster(), s, cluster, off, e, k);
  }

  // ---- Reading and editing one entry in the sector buffer

  lemma MiddleSlice(a: seq<byte>, m: seq<byte>, b: seq<byte>, i: nat, n: nat)
    requires i + n <= |m|
    ensures (a + m + b)[|a| + i..|a| + i + n] == m[i..i + n]
  {}

  lemma SectorOfCluster(g: Geometry, d: Disk, c: nat, off: nat)
    requires g.Fits(d) && g.Cluster(c) && off % ENTRY == 0 && off + ENTRY <= g.BytesPerCluster()
    ensures g.Lba(c) + off / 512 < |d| && off % 512 + ENTRY <= 512
    ensures DataOf(g, d)[c][off..off + ENTRY] == d[g.Lba(c) + off / 512][off % 512..off % 512 + ENTRY]
  {
    DataAt(g, d, c);
    LbaBounds(g, d, c);
    SectorInCluster(g.spc, off);
    EntryInSector(off, 0);
    hide DataOf;
    var x, y := DataOf(g, d)[c][off..off + ENTRY], d[g.Lba(c) + off / 512][off % 512..off % 512 + ENTRY];
    forall i | 0 <= i < ENTRY
      ensures x[i] == y[i]
    {
      EntryInSector(off, i);
    }
  }

  /** A slot's entry is what its sector holds. */
  lemma SlotSector(vol: Volume, l: Ledger, s: Slot, cluster: nat, off: nat, t: Tree)
    requires Sound(vol, l) && IsStore(vol, l, t.store) && Lies(l.chains, vol.g.BytesPerCluster(), s, cluster, off) && Inside(t, s)
    ensures vol.g.Cluster(cluster) && vol.g.Lba(cluster) + off / 512 < |vol.disk| && off % 512 + ENTRY <= 512
    ensures EntryOf(t, s) == vol.disk[vol.g.Lba(cluster) + off / 512][off % 512..off % 512 + ENTRY]
  {
    hide Owned;
    var k := SlotBounds(vol, l, s, cluster, off);
    BytesPerClusterAligned(vol.g);
    Inward(vol.g.BytesPerCluster(), off);
    SectorOfCluster(vol.g, vol.disk, cluster, off);
    ChainSlice(vol.Data(), l.chains[s.dir], k, off);
  }

  lemma ChainSlice(data: seq<seq<byte>>, ch: seq<nat>, k: nat, off: nat)
    requires k < |ch| && ch[k] < |data| && off + ENTRY <= |data[ch[k]]|
    ensures var base := |ChainBytes(data, ch[..k])|;
      base + off + ENTRY <= |ChainBytes(data, ch)| &&
      ChainBytes(data, ch)[base + off..base + off + ENTRY] == data[ch[k]][off..off + ENTRY]
  {
    ChainBytesAt(data, ch, k);
    MiddleSlice(ChainBytes(data, ch[..k]), data[ch[k]], ChainBytes(data, ch[k + 1..]), off, ENTRY);
  }

  lemma FirstEdited(sector: Sector, o: nat, first: nat)
    requires o + ENTRY <= 512 && first < TWO32
    ensures Splice(Splice(sector, o + 20, ToLE(first / 0x1_0000, 2)), o + 26, ToLE(first % 0x1_0000, 2)) ==
            Splice(sector, o, WithFirst(sector[o..o + ENTRY], first))
  {}

  lemma SizeEdited(sector: Sector, o: nat, size: nat)
    requires o + ENTRY <= 512
    ensures Splice(sector, o + 28, ToLE(size, 4)) == Splice(sector, o, WithSize(sector[o..o + ENTRY], size))
  {}

  lemma DeletedEdited(sector: Sector, o: nat, e: Entry)
    requires o + ENTRY <= 512 && e == sector[o..o + ENTRY]
    ensures Splice(sector, o, [DELETED]) == Splice(sector, o, Deleted(e))
  {}

  /** `first_cluster_high` and `first_cluster_low` of an entry. */
  method EditFirst(vol: Volume, cluster: nat, off: nat, first: nat, ghost l: Ledger, ghost s: Slot, ghost t: Tree)
    requires Sound(vol, l) && IsStore(vol, l, t.store) && Lies(l.chains, vol.g.BytesPerCluster(), s, cluster, off)
    requires Inside(t, s) && first < TWO32
    modifies vol`disk, vol.buf
    ensures Sound(vol, l) && vol.Untouched() == old(vol.Untouched()) && vol.Fat() == old(vol.Fat())
    ensures IsStore(vol, l, PutBytes(t, s, WithFirst(EntryOf(t, s), first)))
  {
    hide PutBytes, StoreOf, Owned;
    SlotSector(vol, l, s, cluster, off, t);
    var lba, o := vol.g.Lba(cluster) + off / 512, off % 512;
    vol.ReadSector(lba);
    vol.CopyIn(o + 20, ToLE(first / 0x1_0000, 2));
    vol.CopyIn(o + 26, ToLE(first % 0x1_0000, 2));
    FirstEdited(vol.disk[lba], o, first);
    StoreEntry(vol, cluster, off, WithFirst(EntryOf(t, s), first), l, s, t);
  }

  /** The `file_size` field of an entry. */
  method EditSize(vol: Volume, cluster: nat, off: nat, size: nat, ghost l: Ledger, ghost s: Slot, ghost t: Tree)
    requires Sound(vol, l) && IsStore(vol, l, t.store) && Lies(l.chains, vol.g.BytesPerCluster(), s, cluster, off)
    requires Inside(t, s) && size < TWO32
    modifies vol`disk, vol.buf
    ensures Sound(vol, l) && vol.Untouched() == old(vol.Untouched()) && vol.Fat() == old(vol.Fat())
    ensures IsStore(vol, l, PutBytes(t, s, WithSize(EntryOf(t, s), size)))
  {
    hide PutBytes, StoreOf, Owned;
    SlotSector(vol, l, s, cluster, off, t);
    var lba, o := vol.g.Lba(cluster) + off / 512, off % 512;
    vol.ReadSector(lba);
    vol.CopyIn(o + 28, ToLE(size, 4));
    SizeEdited(vol.disk[lba], o, size);
    StoreEntry(vol, cluster, off, WithSize(EntryOf(t, s), size), l, s, t);
  }

  /** The deletion mark. */
  method EditDeleted(vol: Volume, cluster: nat, off: nat, ghost l: Ledger, ghost s: Slot, ghost t: Tree)
    requires Sound(vol, l) && IsStore(vol, l, t.store) && Lies(l.chains, vol.g.BytesPerCluster(), s, cluster, off)
    requires Inside(t, s)
    modifies vol`disk, vol.buf
    ensures Sound(vol, l) && vol.Untouched() == old(vol.Untouched()) && vol.Fat() == old(vol.Fat())
    ensures IsStore(vol, l, PutBytes(t, s, Deleted(EntryOf(t, s))))
  {
    hide PutBytes, StoreOf, Owned;
    SlotSector(vol, l, s, cluster, off, t);
    var lba, o := vol.g.Lba(cluster) + off / 512, off % 512;
    vol.ReadSector(lba);
    vol.CopyIn(o, [DELETED]);
    DeletedEdited(vol.disk[lba], o, EntryOf(t, s));
    StoreEntry(vol, cluster, off, Deleted(EntryOf(t, s)), l, s, t);
  }

  lemma NewEdited(sector: Sector, o: nat, n: ShortName, attr: byte, first: nat)
    requires o + ENTRY <= 512 && n.Wide() && first < TWO32
    ensures var s1 := Splice(Splice(Splice(sector, o, Zeros(ENTRY)), o, n.base), o + 8, n.ext);
      var s2 := Splice(Splice(Splice(s1, o + 11, [attr]), o + 20, ToLE(first / 0x1_0000, 2)), o + 26, ToLE(first % 0x1_0000, 2));
      Splice(s2, o + 28, Zeros(4)) == Splice(sector, o, NewEntry(n, attr, first))
  {
    var e := NewEntry(n, attr, first);
    assert e[..8] == n.base && e[8..11] == n.ext && e[11] == attr;
  }

  /** A whole new entry, in the sector that is already in the buffer. */
  method EditNew(vol: Volume, cluster: nat, off: nat, n: ShortName, attr: byte, first: nat,
                 ghost l: Ledger, ghost s: Slot, ghost t: Tree)
    requires Sound(vol, l) && IsStore(vol, l, t.store) && Lies(l.chains, vol.g.BytesPerCluster(), s, cluster, off)
    requires Inside(t, s) && n.Wide() && first < TWO32
    requires vol.g.Cluster(cluster) && vol.g.Lba(cluster) + off / 512 < |vol.disk|
    requires vol.buf[..] == vol.disk[vol.g.Lba(cluster) + off / 512]
    modifies vol`disk, vol.buf
    ensures Sound(vol, l) && vol.Untouched() == old(vol.Untouched()) && vol.Fat() == old(vol.Fat())
    ensures IsStore(vol, l, PutBytes(t, s, NewEntry(n, attr, first)))
  {
    hide PutBytes, StoreOf, Owned;
    SlotSector(vol, l, s, cluster, off, t);
    var lba, o := vol.g.Lba(cluster) + off / 512, off % 512;
    vol.CopyIn(o, Zeros(ENTRY));
    vol.CopyIn(o, n.base);
    vol.CopyIn(o + 8, n.ext);
    vol.CopyIn(o + 11, [attr]);
    vol.CopyIn(o + 20, ToLE(first / 0x1_0000, 2));
    vol.CopyIn(o + 26, ToLE(first % 0x1_0000, 2));
    vol.CopyIn(o + 28, Zeros(4));
    NewEdited(vol.disk[lba], o, n, attr, first);
    StoreEntry(vol, cluster, off, NewEntry(n, attr, first), l, s, t);
  }
}
