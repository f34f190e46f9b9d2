/** The on-disk half of the FAT32 driver: sectors, the file allocation table and the data clusters. */
module FatVolume {
  import opened Bytes

  type Sector = s: seq<byte> | |s| == 512 witness Zeros(512)
  type Disk = seq<Sector>

  const FREE: nat := 0
  const BAD: nat := 0x0FFF_FFF7
  const EOC: nat := 0x0FFF_FFF8
  const EOC_MARK: nat := 0x0FFF_FFFF

  /** What `fat32_mount` reads from the boot sector. Clusters are numbered from 2 to `Limit() - 1`. */
  datatype Geometry = Geometry(fatLba: nat, dataLba: nat, rootCluster: nat, spc: nat, total: nat) {
    function Limit(): nat { total + 2 }

    function BytesPerCluster(): nat { spc * 512 }

    function Lba(c: nat): (lba: nat)
      requires c >= 2
    {
      dataLba + (c - 2) * spc
    }

    predicate Fits(disk: Disk) {
      && spc in {1, 2, 4, 8, 16, 32, 64, 128}
      && 0 < total
      && Limit() <= BAD
      && fatLba + (Limit() + 127) / 128 <= dataLba
      && dataLba + total * spc <= |disk| <= TWO32
    }

    predicate Cluster(c: nat) { 2 <= c < Limit() }
  }

  // ---- Views of a disk: table entries (28 bits), their reserved upper bits, and cluster contents.

  ghost function RawEntry(g: Geometry, d: Disk, c: nat): nat {
    if g.Fits(d) && c < g.Limit() then
      FromLE(d[g.fatLba + c / 128][c % 128 * 4..c % 128 * 4 + 4])
    else 0
  }

  ghost function FatOf(g: Geometry, d: Disk): (fat: seq<nat>)
    ensures |fat| == g.Limit()
  {
    Tabulate<nat>(g.Limit(), c => RawEntry(g, d, c) % TWO28)
  }

  ghost function TopOf(g: Geometry, d: Disk): (top: seq<nat>)
    ensures |top| == g.Limit()
  {
    Tabulate<nat>(g.Limit(), c => RawEntry(g, d, c) / TWO28)
  }

  /** How many bytes of sector `s` hold table entries. */
  function EntryBytes(g: Geometry, s: nat): (n: nat)
    ensures n <= 512
  {
    if s < g.fatLba || g.Limit() <= (s - g.fatLba) * 128 then 0
    else if g.Limit() - (s - g.fatLba) * 128 >= 128 then 512 else (g.Limit() - (s - g.fatLba) * 128) * 4
  }

  predicate InDataArea(g: Geometry, s: nat) { g.dataLba <= s < g.dataLba + g.total * g.spc }

  /** What of a sector belongs neither to the table nor to a cluster. */
  function RestOfSector(g: Geometry, s: nat, sector: Sector): seq<byte> {
    if InDataArea(g, s) then [] else sector[EntryBytes(g, s)..]
  }

  /** Everything on the disk but table entries and clusters: boot sector, information sector, second table, and the like. */
  ghost function RestOf(g: Geometry, d: Disk): (rest: seq<seq<byte>>)
    ensures |rest| == |d|
  {
    Tabulate<seq<byte>>(|d|, (s: nat) => if s < |d| then RestOfSector(g, s, d[s]) else [])
  }

  lemma RestAt(g: Geometry, d: Disk, s: nat)
    requires s < |d|
    ensures RestOf(g, d)[s] == RestOfSector(g, s, d[s])
  {
    TabulateAt<seq<byte>>(|d|, (s: nat) => if s < |d| then RestOfSector(g, s, d[s]) else [], s);
  }

  lemma RestKept(g: Geometry, d: Disk, t: nat, d': Disk)
    requires t < |d| && |d'| == |d| && d' == d[t := d'[t]] && RestOfSector(g, t, d'[t]) == RestOfSector(g, t, d[t])
    ensures RestOf(g, d') == RestOf(g, d)
  {
    hide RestOf, RestOfSector;
    forall s: nat | s < |d|
      ensures RestOf(g, d')[s] == RestOf(g, d)[s]
    {
      RestAt(g, d, s);
      RestAt(g, d', s);
    }
  }

  lemma RestBesideEntry(g: Geometry, c: nat, sector: Sector, w: seq<byte>)
    requires g.total > 0 && g.fatLba + (g.Limit() + 127) / 128 <= g.dataLba && c < g.Limit() && |w| == 4
    ensures c % 128 * 4 + 4 <= EntryBytes(g, g.fatLba + c / 128)
    ensures RestOfSector(g, g.fatLba + c / 128, Splice(sector, c % 128 * 4, w)) == RestOfSector(g, g.fatLba + c / 128, sector)
  {
    var n := EntryBytes(g, g.fatLba + c / 128);
    assert c == c / 128 * 128 + c % 128;
    assert Splice(sector, c % 128 * 4, w)[n..] == sector[n..];
  }

  lemma ClusterInDataArea(g: Geometry, c: nat, s: nat)
    requires g.Cluster(c) && s < g.spc
    ensures InDataArea(g, g.Lba(c) + s)
  {
    TimesMonotone(c - 2, g.total - 1, g.spc);
    OnceMore(g.total - 1, g.spc);
  }

  lemma TimesMonotone(a: nat, b: nat, k: nat)
    requires a <= b
    ensures a * k <= b * k
  {}

  lemma OnceMore(a: nat, k: nat)
    ensures (a + 1) * k == a * k + k
  {}

  lemma LbaBounds(g: Geometry, d: Disk, c: nat)
    requires g.Fits(d) && g.Cluster(c)
    ensures g.dataLba <= g.Lba(c) && g.Lba(c) + g.spc <= |d|
  {
    assert (c - 2) * g.spc + g.spc == (c - 1) * g.spc <= g.total * g.spc;
  }

  ghost function ClusterOf(g: Geometry, d: Disk, c: nat): (bs: seq<byte>)
    ensures g.Fits(d) && g.Cluster(c) ==> |bs| == g.BytesPerCluster()
  {
    if g.Fits(d) && g.Cluster(c) then
      LbaBounds(g, d, c);
      seq(g.spc * 512, i requires 0 <= i < g.spc * 512 => d[g.Lba(c) + i / 512][i % 512])
    else []
  }

  ghost function DataOf(g: Geometry, d: Disk): (data: seq<seq<byte>>)
    ensures |data| == g.Limit()
    ensures g.Fits(d) ==> forall c: nat :: g.Cluster(c) ==> |data[c]| == g.BytesPerCluster()
  {
    var data := Tabulate(g.Limit(), c => ClusterOf(g, d, c));
    assert forall c: nat :: g.Cluster(c) ==> data[c] == ClusterOf(g, d, c) by {
      forall c: nat | g.Cluster(c) ensures data[c] == ClusterOf(g, d, c) {
        TabulateAt(g.Limit(), c => ClusterOf(g, d, c), c);
      }
    }
    data
  }

  lemma FatAt(g: Geometry, d: Disk, c: nat)
    requires c < g.Limit()
    ensures FatOf(g, d)[c] == RawEntry(g, d, c) % TWO28 && TopOf(g, d)[c] == RawEntry(g, d, c) / TWO28
  {
    TabulateAt<nat>(g.Limit(), c => RawEntry(g, d, c) % TWO28, c);
    TabulateAt<nat>(g.Limit(), c => RawEntry(g, d, c) / TWO28, c);
  }

  lemma DataAt(g: Geometry, d: Disk, c: nat)
    requires c < g.Limit()
    ensures DataOf(g, d)[c] == ClusterOf(g, d, c)
  {
    TabulateAt(g.Limit(), c => ClusterOf(g, d, c), c);
  }

  lemma ClustersSeparate(g: Geometry, c1: nat, c2: nat)
    requires 2 <= c1 < c2
    ensures g.Lba(c1) + g.spc <= g.Lba(c2)
  {
    assert (c2 - 2) * g.spc >= (c1 - 1) * g.spc == (c1 - 2) * g.spc + g.spc;
  }

  lemma RawEntryWritten(g: Geometry, d: Disk, c: nat, v: nat, d': Disk, k: nat)
    requires g.Fits(d) && c < g.Limit() && k < g.Limit() && v < TWO32
    requires d' == d[g.fatLba + c / 128 := Splice(d[g.fatLba + c / 128], c % 128 * 4, ToLE(v, 4))]
    ensures RawEntry(g, d', k) == if k == c then v else RawEntry(g, d, k)
  {
    hide ToLE, FromLE, Pow256, RawEntry, Splice;
    var sector, at := d[g.fatLba + c / 128], c % 128 * 4;
    RawEntryIs(g, d, k);
    RawEntryIs(g, d', k);
    if k == c {
      Pow256Values();
      FromToLE(v, 4);
      SplicedWord(sector, at, ToLE(v, 4), at);
    } else if k / 128 == c / 128 {
      EntriesApart(c, k);
      SplicedWord(sector, at, ToLE(v, 4), k % 128 * 4);
    }
  }

  lemma RawEntryIs(g: Geometry, d: Disk, k: nat)
    requires g.Fits(d) && k < g.Limit()
    ensures g.fatLba + k / 128 < |d| && RawEntry(g, d, k) == FromLE(d[g.fatLba + k / 128][k % 128 * 4..k % 128 * 4 + 4])
  {}

  lemma EntriesApart(c: nat, k: nat)
    requires c != k && c / 128 == k / 128
    ensures c % 128 * 4 + 4 <= k % 128 * 4 || k % 128 * 4 + 4 <= c % 128 * 4
  {}

  lemma SplicedWord(s: seq<byte>, at: nat, w: seq<byte>, j: nat)
    requires |w| == 4 && at + 4 <= |s| && j + 4 <= |s| && (j == at || at + 4 <= j || j + 4 <= at)
    ensures Splice(s, at, w)[j..j + 4] == if j == at then w else s[j..j + 4]
  {}

  lemma DataKept(g: Geometry, d: Disk, d': Disk)
    requires g.Fits(d) && |d'| == |d| && forall i :: g.dataLba <= i < |d| ==> d'[i] == d[i]
    ensures DataOf(g, d') == DataOf(g, d)
  {
    forall k: nat | k < g.Limit()
      ensures DataOf(g, d')[k] == DataOf(g, d)[k]
    {
      DataAt(g, d, k);
      DataAt(g, d', k);
      if g.Cluster(k) { LbaBounds(g, d, k); }
    }
  }

  lemma RestAfterEntry(g: Geometry, d: Disk, c: nat, v: nat, d': Disk)
    requires g.Fits(d) && c < g.Limit()
    requires d' == d[g.fatLba + c / 128 := Splice(d[g.fatLba + c / 128], c % 128 * 4, ToLE(v, 4))]
    ensures RestOf(g, d') == RestOf(g, d)
  {
    hide RestOf, Splice, RestOfSector, EntryBytes;
    RestBesideEntry(g, c, d[g.fatLba + c / 128], ToLE(v, 4));
    RestKept(g, d, g.fatLba + c / 128, d');
  }

  /** Writing four bytes of one table entry changes that entry and nothing else. */
  lemma EntryWritten(g: Geometry, d: Disk, c: nat, v: nat, d': Disk)
    requires g.Fits(d) && c < g.Limit() && v < TWO32
    requires d' == d[g.fatLba + c / 128 := Splice(d[g.fatLba + c / 128], c % 128 * 4, ToLE(v, 4))]
    ensures g.Fits(d')
    ensures FatOf(g, d') == FatOf(g, d)[c := v % TWO28]
    ensures TopOf(g, d') == TopOf(g, d)[c := v / TWO28]
    ensures DataOf(g, d') == DataOf(g, d) && RestOf(g, d') == RestOf(g, d)
  {
    hide FatOf, TopOf, DataOf, RestOf, RawEntry, Splice, RestOfSector;
    RestAfterEntry(g, d, c, v, d');
    forall k: nat | k < g.Limit()
      ensures FatOf(g, d')[k] == if k == c then v % TWO28 else FatOf(g, d)[k]
      ensures TopOf(g, d')[k] == if k == c then v / TWO28 else TopOf(g, d)[k]
    {
      FatAt(g, d, k);
      FatAt(g, d', k);
      RawEntryWritten(g, d, c, v, d', k);
    }
    DataKept(g, d, d');
  }

  lemma ClusterWritten(g: Geometry, d: Disk, c: nat, s: nat, off: nat, bs: seq<byte>, d': Disk, k: nat)
    requires g.Fits(d) && g.Cluster(c) && g.Cluster(k) && s < g.spc && off + |bs| <= 512 && g.Lba(c) + s < |d|
    requires d' == d[g.Lba(c) + s := Splice(d[g.Lba(c) + s], off, bs)]
    ensures s * 512 + off + |bs| <= g.BytesPerCluster()
    ensures ClusterOf(g, d', k) ==
      if k == c then Splice(ClusterOf(g, d, c), s * 512 + off, bs) else ClusterOf(g, d, k)
  {
    LbaBounds(g, d, k);
    if k < c { ClustersSeparate(g, k, c); }
    if c < k { ClustersSeparate(g, c, k); }
    if k != c {
      assert ClusterOf(g, d', k) == ClusterOf(g, d, k);
    } else {
      SectorSpliced(g, d, c, s, off, bs, d');
    }
  }

  lemma SectorSpliced(g: Geometry, d: Disk, c: nat, s: nat, off: nat, bs: seq<byte>, d': Disk)
    requires g.Fits(d) && g.Cluster(c) && s < g.spc && off + |bs| <= 512 && g.Lba(c) + s < |d| && s * 512 + 512 <= g.spc * 512
    requires d' == d[g.Lba(c) + s := Splice(d[g.Lba(c) + s], off, bs)]
    ensures ClusterOf(g, d', c) == Splice(ClusterOf(g, d, c), s * 512 + off, bs)
  {
    var before, after := ClusterOf(g, d, c), ClusterOf(g, d', c);
    LbaBounds(g, d, c);
    var base := g.Lba(c);
    forall i | 0 <= i < g.spc * 512
      ensures after[i] == Splice(before, s * 512 + off, bs)[i]
    {
      PlaceInSector(i, s, off, |bs|);
      assert after[i] == d'[base + i / 512][i % 512] && before[i] == d[base + i / 512][i % 512];
    }
  }

  /** Byte `i` of a cluster lies in the written part of sector `s` exactly when its sector and offset say so. */
  lemma PlaceInSector(i: nat, s: nat, off: nat, n: nat)
    requires off + n <= 512
    ensures s * 512 + off <= i < s * 512 + off + n <==> i / 512 == s && off <= i % 512 < off + n
    ensures i / 512 == s ==> i - (s * 512 + off) == i % 512 - off
  {}

  /** Writing bytes into one sector of cluster `c` changes those bytes of that cluster and nothing else. */
  lemma SectorWritten(g: Geometry, d: Disk, c: nat, s: nat, off: nat, bs: seq<byte>, d': Disk)
    requires g.Fits(d) && g.Cluster(c) && s < g.spc && off + |bs| <= 512 && g.Lba(c) + s < |d|
    requires d' == d[g.Lba(c) + s := Splice(d[g.Lba(c) + s], off, bs)]
    ensures g.Fits(d') && s * 512 + off + |bs| <= g.BytesPerCluster()
    ensures FatOf(g, d') == FatOf(g, d)
    ensures TopOf(g, d') == TopOf(g, d)
    ensures DataOf(g, d') == DataOf(g, d)[c := Splice(DataOf(g, d)[c], s * 512 + off, bs)]
    ensures RestOf(g, d') == RestOf(g, d)
  {
    hide RestOf;
    ClusterInDataArea(g, c, s);
    RestKept(g, d, g.Lba(c) + s, d');
    LbaBounds(g, d, c);
    ClusterWritten(g, d, c, s, off, bs, d', c);
    forall k: nat | k < g.Limit()
      ensures FatOf(g, d')[k] == FatOf(g, d)[k] && TopOf(g, d')[k] == TopOf(g, d)[k]
      ensures DataOf(g, d')[k] == DataOf(g, d)[c := Splice(ClusterOf(g, d, c), s * 512 + off, bs)][k]
    {
      FatAt(g, d, k);
      FatAt(g, d', k);
      DataAt(g, d, k);
      DataAt(g, d', k);
      if k >= 2 { ClusterWritten(g, d, c, s, off, bs, d', k); }
    }
    DataAt(g, d, c);
  }
}
