/** The FAT32 driver's sector buffer and table operations: read, set, allocate and free clusters. */
module FatTable {
  import opened Bytes
  import opened FatVolume

  // ---- Following links

  /** A value that the freeing and reading loops follow as a cluster number. */
  predicate IsLink(v: nat) { 2 <= v < BAD }

  ghost predicate LinksInside(fat: seq<nat>) {
    forall c :: 2 <= c < |fat| && IsLink(fat[c]) ==> fat[c] < |fat|
  }

  /** The value held after following `k` links from `c`; it stays put once it is no longer a link. */
  ghost function Hop(fat: seq<nat>, c: nat, k: nat): nat {
    if k == 0 then c else
    var p := Hop(fat, c, k - 1);
    if IsLink(p) && p < |fat| then fat[p] else p
  }

  ghost predicate Visited(fat: seq<nat>, c: nat, k: nat, x: nat) {
    IsLink(x) && exists j: nat :: j < k && Hop(fat, c, j) == x
  }

  ghost predicate Reachable(fat: seq<nat>, c: nat, x: nat) {
    IsLink(x) && exists j: nat :: Hop(fat, c, j) == x
  }

  lemma {:induction false} HopStops(fat: seq<nat>, c: nat, k: nat, j: nat)
    requires k <= j && !IsLink(Hop(fat, c, k))
    ensures Hop(fat, c, j) == Hop(fat, c, k)
    decreases j
  {
    if k < j { HopStops(fat, c, k, j - 1); }
  }

  /** Once a cluster comes round again, nothing new is ever reached. */
  lemma {:induction false} HopCycles(fat: seq<nat>, c: nat, i: nat, k: nat, j: nat)
    requires i < k && Hop(fat, c, i) == Hop(fat, c, k)
    ensures exists m: nat :: m < k && Hop(fat, c, m) == Hop(fat, c, j)
  {
    if j >= k {
      HopCycles(fat, c, i, k, j - 1);
      var m: nat :| m < k && Hop(fat, c, m) == Hop(fat, c, j - 1);
      assert Hop(fat, c, m + 1) == Hop(fat, c, j);
      assert m + 1 == k ==> Hop(fat, c, i) == Hop(fat, c, j);
    }
  }

  lemma {:induction false} HopInside(fat: seq<nat>, c: nat, k: nat)
    requires LinksInside(fat) && (IsLink(c) ==> c < |fat|)
    ensures IsLink(Hop(fat, c, k)) ==> Hop(fat, c, k) < |fat|
  {
    if k > 0 { HopInside(fat, c, k - 1); }
  }

  lemma VisitedStep(fat: seq<nat>, c: nat, k: nat, x: nat)
    ensures Visited(fat, c, k + 1, x) <==> Visited(fat, c, k, x) || (IsLink(x) && x == Hop(fat, c, k))
  {
    if IsLink(x) && x == Hop(fat, c, k) { assert k < k + 1; }
  }

  /** The walk is over: it ran off the links, or came back to a cluster it had visited. */
  ghost predicate WalkDone(fat: seq<nat>, c: nat, k: nat) {
    || !IsLink(Hop(fat, c, k))
    || exists i: nat :: i < k && Hop(fat, c, i) == Hop(fat, c, k)
  }

  lemma WalkDoneVisitsAll(fat: seq<nat>, c: nat, k: nat, x: nat)
    requires WalkDone(fat, c, k)
    ensures Visited(fat, c, k, x) <==> Reachable(fat, c, x)
  {
    if Reachable(fat, c, x) {
      var j: nat :| Hop(fat, c, j) == x;
      if !IsLink(Hop(fat, c, k)) {
        if k <= j { HopStops(fat, c, k, j); }
      } else {
        var i: nat :| i < k && Hop(fat, c, i) == Hop(fat, c, k);
        HopCycles(fat, c, i, k, j);
      }
    }
  }

  /** The table once the clusters of the first `k` hops are free. */
  ghost function FreedBy(fat: seq<nat>, c: nat, k: nat): (freed: seq<nat>)
    ensures |freed| == |fat|
  {
    seq(|fat|, x requires 0 <= x < |fat| => if Visited(fat, c, k, x) then FREE else fat[x])
  }

  lemma FreedStep(fat: seq<nat>, c: nat, k: nat)
    requires IsLink(Hop(fat, c, k)) && Hop(fat, c, k) < |fat|
    ensures var x, freed := Hop(fat, c, k), FreedBy(fat, c, k);
      && (Visited(fat, c, k, x) ==> freed[x] == FREE && WalkDone(fat, c, k))
      && (!Visited(fat, c, k, x) ==>
           freed[x] == fat[x] == Hop(fat, c, k + 1) && FreedBy(fat, c, k + 1) == freed[x := FREE])
  {
    forall x: nat | x < |fat| { VisitedStep(fat, c, k, x); }
  }

  lemma FreedNone(fat: seq<nat>, c: nat)
    ensures FreedBy(fat, c, 0) == fat
  {}

  lemma WalkEnds(fat: seq<nat>, c: nat, k: nat)
    requires !IsLink(Hop(fat, c, k))
    ensures WalkDone(fat, c, k)
  {}

  /** The table with everything reachable from `c` freed. */
  ghost function Freed(fat: seq<nat>, c: nat): (freed: seq<nat>)
    ensures |freed| == |fat|
    ensures forall x: nat :: x < |fat| ==> freed[x] == if Reachable(fat, c, x) then FREE else fat[x]
  {
    seq(|fat|, x requires 0 <= x < |fat| => if Reachable(fat, c, x) then FREE else fat[x])
  }

  ghost function Occupied(fat: seq<nat>): set<nat> {
    set c: nat | c < |fat| && fat[c] != FREE
  }

  lemma WalkDoneFreesAll(fat: seq<nat>, c: nat, k: nat)
    requires WalkDone(fat, c, k)
    ensures FreedBy(fat, c, k) == Freed(fat, c)
  {
    forall x: nat | x < |fat| { WalkDoneVisitsAll(fat, c, k, x); }
  }

  lemma OccupiedShrinks(fat: seq<nat>, c: nat)
    requires c < |fat|
    ensures fat[c] != FREE ==> |Occupied(fat[c := FREE])| < |Occupied(fat)|
    ensures fat[c] == FREE ==> fat[c := FREE] == fat
  {
    if fat[c] != FREE { assert Occupied(fat) == Occupied(fat[c := FREE]) + {c}; }
  }

  lemma EntryPosition(c: nat)
    requires c < BAD
    ensures U32(c * 4) / 512 == c / 128 && U32(c * 4) % 512 == c % 128 * 4
  {}

  /** Keeping the four reserved bits of `existing` and taking the other 28 from `value`. */
  function Merged(existing: nat, value: nat): (entry: nat)
    requires existing < TWO32
    ensures entry < TWO32 && entry % TWO28 == value % TWO28 && entry / TWO28 == existing / TWO28
  {
    existing / TWO28 * TWO28 + value % TWO28
  }

  lemma NothingZeroed(b: seq<byte>)
    ensures Splice(b, 0, Zeros(0)) == b
  {}

  lemma AllZeroed(b: seq<byte>)
    ensures Splice(b, 0, Zeros(|b|)) == Zeros(|b|)
  {}

  lemma ZeroedMore(b: seq<byte>, s: nat)
    requires s * 512 + 512 <= |b|
    ensures Splice(Splice(b, 0, Zeros(s * 512)), s * 512 + 0, Zeros(512)) == Splice(b, 0, Zeros((s + 1) * 512))
  {}

  datatype Kept = Kept(upper: seq<nat>, rest: seq<seq<byte>>)

  class Volume {
    const g: Geometry
    const buf: array<byte>
    var disk: Disk

    ghost predicate Valid()
      reads this
    {
      buf.Length == 512 && g.Fits(disk)
    }

    ghost function Fat(): (fat: seq<nat>)
      reads this
      ensures |fat| == g.Limit()
    {
      FatOf(g, disk)
    }

    /** What no operation changes: the upper bits of the table's entries, and whatever is neither table nor cluster. */
    ghost function Untouched(): Kept
      reads this
    {
      Kept(TopOf(g, disk), RestOf(g, disk))
    }

    ghost function Data(): (data: seq<seq<byte>>)
      reads this
      ensures |data| == g.Limit()
      ensures Valid() ==> forall c: nat :: g.Cluster(c) ==> |data[c]| == g.BytesPerCluster()
    {
      DataOf(g, disk)
    }

    constructor (g: Geometry, disk: Disk)
      requires g.Fits(disk)
      ensures Valid() && this.g == g && this.disk == disk && fresh(buf)
    {
      this.g := g;
      this.disk := disk;
      buf := new byte[512](_ => 0);
    }

    method ReadSector(lba: nat)
      requires Valid() && lba < |disk|
      modifies buf
      ensures buf[..] == disk[lba]
    {
      var sector := disk[lba];
      forall i | 0 <= i < 512 { buf[i] := sector[i]; }
    }

    method WriteSector(lba: nat)
      requires Valid() && lba < |disk|
      modifies `disk
      ensures Valid() && disk == old(disk)[lba := buf[..]]
    {
      disk := disk[lba := buf[..]];
    }

    /** `f_memcpy` into the sector buffer. */
    method CopyIn(off: nat, bs: seq<byte>)
      requires buf.Length == 512 && off + |bs| <= 512
      modifies buf
      ensures buf[..] == Splice(old(buf[..]), off, bs)
    {
      for i := 0 to |bs|
        invariant forall j :: 0 <= j < 512 ==>
          buf[j] == if off <= j < off + i then bs[j - off] else old(buf[j])
      {
        buf[off + i] := bs[i];
      }
    }

    /** `f_memset` of the whole sector buffer to zero. */
    method ZeroBuf()
      requires buf.Length == 512
      modifies buf
      ensures buf[..] == Zeros(512)
    {
      forall i | 0 <= i < 512 { buf[i] := 0; }
    }

    method FatGet(cluster: nat) returns (entry: nat)
      requires Valid() && cluster < g.Limit()
      modifies buf
      ensures entry == Fat()[cluster]
    {
      var fatOffset := U32(cluster * 4);
      EntryPosition(cluster);
      var raw := ReadEntry(g.fatLba + fatOffset / 512, fatOffset % 512);
      entry := raw % TWO28;
      FatAt(g, disk, cluster);
    }

    /** Loads the sector and picks the little-endian word at `at`. */
    method ReadEntry(lba: nat, at: nat) returns (raw: nat)
      requires Valid() && lba < |disk| && at + 4 <= 512
      modifies buf
      ensures buf[..] == disk[lba] && raw == FromLE(disk[lba][at..at + 4]) && raw < TWO32
    {
      ReadSector(lba);
      assert buf[at..at + 4] == disk[lba][at..at + 4];
      raw := FromLE(buf[at..at + 4]);
      FromLEBound(buf[at..at + 4]);
      Pow256Values();
    }

    method FatSet(cluster: nat, value: nat)
      requires Valid() && cluster < g.Limit()
      modifies `disk, buf
      ensures Valid() && |disk| == |old(disk)|
      ensures Fat() == old(Fat())[cluster := value % TWO28]
      ensures Untouched() == old(Untouched()) && Data() == old(Data())
    {
      var fatOffset := U32(cluster * 4);
      EntryPosition(cluster);
      var lba, at := g.fatLba + fatOffset / 512, fatOffset % 512;
      var existing := ReadEntry(lba, at);
      var newEntry := Merged(existing, value);
      CopyIn(at, ToLE(newEntry, 4));
      WriteSector(lba);
      EntryWritten(g, old(disk), cluster, newEntry, disk);
      FatAt(g, old(disk), cluster);
    }

    /** The lowest free cluster, now marked end-of-chain and zero-filled; 0 when none is free. */
    method FatAlloc() returns (c: nat)
      requires Valid()
      modifies `disk, buf
      ensures Valid() && |disk| == |old(disk)| && Untouched() == old(Untouched())
      ensures c == 0 ==> disk == old(disk) && forall k: nat :: g.Cluster(k) ==> old(Fat())[k] != FREE
      ensures c != 0 ==>
        && g.Cluster(c) && old(Fat())[c] == FREE
        && (forall k :: 2 <= k < c ==> old(Fat())[k] != FREE)
        && Fat() == old(Fat())[c := EOC_MARK]
        && Data() == old(Data())[c := Zeros(g.BytesPerCluster())]
    {
      hide FatOf, TopOf, RestOf, DataOf;
      for k := 2 to g.Limit()
        invariant disk == old(disk)
        invariant forall j :: 2 <= j < k ==> old(Fat())[j] != FREE
      {
        var entry := FatGet(k);
        if entry == FREE {
          FatSet(k, EOC_MARK);
          ZeroCluster(k);
          return k;
        }
      }
      c := 0;
    }

    /** Read-modify-write of bytes inside one sector of a cluster. */
    method PutBytes(c: nat, s: nat, off: nat, bs: seq<byte>)
      requires Valid() && g.Cluster(c) && s < g.spc && off + |bs| <= 512
      modifies `disk, buf
      ensures Valid() && |disk| == |old(disk)|
      ensures Fat() == old(Fat()) && Untouched() == old(Untouched())
      ensures s * 512 + off + |bs| <= g.BytesPerCluster()
      ensures Data() == old(Data())[c := Splice(old(Data())[c], s * 512 + off, bs)]
    {
      LbaBounds(g, disk, c);
      var lba := g.Lba(c) + s;
      ReadSector(lba);
      CopyIn(off, bs);
      WriteSector(lba);
      SectorWritten(g, old(disk), c, s, off, bs, disk);
    }

    /** Allocates a cluster and links it after `cluster`; 0 when none is free. */
    method FatAppend(cluster: nat) returns (added: nat)
      requires Valid() && g.Cluster(cluster)
      modifies `disk, buf
      ensures Valid() && |disk| == |old(disk)| && Untouched() == old(Untouched())
      ensures added == 0 ==> disk == old(disk) && forall k: nat :: g.Cluster(k) ==> old(Fat())[k] != FREE
      ensures added != 0 ==>
        && g.Cluster(added) && old(Fat())[added] == FREE
        && Fat() == old(Fat())[added := EOC_MARK][cluster := added][added := EOC_MARK]
        && Data() == old(Data())[added := Zeros(g.BytesPerCluster())]
    {
      hide FatOf, TopOf, RestOf, DataOf;
      added := FatAlloc();
      if added != 0 {
        FatSet(cluster, added);
        FatSet(added, EOC_MARK);
      }
    }

    method ZeroCluster(c: nat)
      requires Valid() && g.Cluster(c)
      modifies `disk, buf
      ensures Valid() && |disk| == |old(disk)|
      ensures Fat() == old(Fat()) && Untouched() == old(Untouched())
      ensures Data() == old(Data())[c := Zeros(g.BytesPerCluster())]
    {
      hide FatOf, TopOf, RestOf, DataOf, Splice, Zeros;
      var lba := g.Lba(c);
      LbaBounds(g, disk, c);
      ZeroBuf();
      NothingZeroed(Data()[c]);
      for s := 0 to g.spc
        invariant Valid() && |disk| == |old(disk)| && buf[..] == Zeros(512)
        invariant Fat() == old(Fat()) && Untouched() == old(Untouched())
        invariant s * 512 <= g.BytesPerCluster()
        invariant Data() == old(Data())[c := Splice(old(Data())[c], 0, Zeros(s * 512))]
      {
        ghost var before := disk;
        WriteSector(lba + s);
        AllZeroed(before[lba + s]);
        SectorWritten(g, before, c, s, 0, Zeros(512), disk);
        ZeroedMore(old(Data())[c], s);
      }
      AllZeroed(old(Data())[c]);
    }

    /**
     * Frees exactly the clusters reachable from `cluster`, and ends even when the links form a cycle:
     * a cluster met again already reads back as free.
     */
    method FatFreeChain(cluster: nat)
      requires Valid() && LinksInside(Fat()) && (IsLink(cluster) ==> cluster < g.Limit())
      modifies `disk, buf
      ensures Valid() && |disk| == |old(disk)| && Untouched() == old(Untouched()) && Data() == old(Data())
      ensures Fat() == Freed(old(Fat()), cluster)
    {
      hide FatOf, TopOf, RestOf, DataOf, FreedBy, Freed, Occupied, LinksInside, Visited, WalkDone;
      ghost var fat, k: nat := Fat(), 0;
      var cur := cluster;
      FreedNone(fat, cluster);
      while IsLink(cur)
        invariant Valid() && |disk| == |old(disk)| && Untouched() == old(Untouched()) && Data() == old(Data())
        invariant Fat() == FreedBy(fat, cluster, k)
        invariant cur == Hop(fat, cluster, k) || (cur == FREE && WalkDone(fat, cluster, k))
        decreases |Occupied(FreedBy(fat, cluster, k))|, if IsLink(cur) then 1 else 0
      {
        HopInside(fat, cluster, k);
        FreedStep(fat, cluster, k);
        OccupiedShrinks(FreedBy(fat, cluster, k), cur);
        var next := FatGet(cur);
        FatSet(cur, FREE);
        if !Visited(fat, cluster, k, cur) { k := k + 1; }
        cur := next;
      }
      if cur == Hop(fat, cluster, k) { WalkEnds(fat, cluster, k); }
      WalkDoneFreesAll(fat, cluster, k);
    }
  }
}
