/** What a directory scan finds in the bytes of a directory. */
module FatScan {
  import opened Bytes
  import opened FatNames
  import opened FatEntries
  import opened FatLongNames
  import opened FatTree
  import opened FatNodes

  const NAME_MAX: nat := 64

  /** An entry found at `pos`, with the name the scan gave it. */
  datatype Found = Found(pos: nat, name: seq<byte>)

  /** The name of an ordinary entry: the pending long name, or its own short one. */
  function FoundName(p: Pending, e: Entry): seq<byte>
    requires PendingOk(p)
  {
    if p.Collecting? && p.buf[0] != 0 then CStr(p.buf[..NAME_BUF - 1]) else NameOf(e)
  }

  /** The entries found from `pos` on, in order. */
  ghost function Scan(b: seq<byte>, pos: nat, p: Pending): seq<Found>
    requires LongNamesFit(b) && PendingOk(p) && pos % ENTRY == 0
    decreases |b| - pos
  {
    if !EntryPos(b, pos) then [] else
    var e := EntryAt(b, pos);
    if e[0] == 0 then []
    else if IsLongNamePart(e) then Scan(b, pos + ENTRY, Collect(p, e))
    else if Shows(e) then [Found(pos, FoundName(p, e))] + Scan(b, pos + ENTRY, Idle)
    else Scan(b, pos + ENTRY, Idle)
  }

  lemma {:induction false} ScanOrder(b: seq<byte>, pos: nat, p: Pending)
    requires LongNamesFit(b) && PendingOk(p) && pos % ENTRY == 0
    ensures forall i :: 0 <= i < |Scan(b, pos, p)| ==>
      pos <= Scan(b, pos, p)[i].pos && EntryPos(b, Scan(b, pos, p)[i].pos) && Shows(EntryAt(b, Scan(b, pos, p)[i].pos))
    ensures forall i, j :: 0 <= i < j < |Scan(b, pos, p)| ==> Scan(b, pos, p)[i].pos < Scan(b, pos, p)[j].pos
    decreases |b| - pos
  {
    hide LfnPut, LfnFits, NameOf, FoundName, IsVolumeId, Collect;
    if EntryPos(b, pos) && EntryAt(b, pos)[0] != 0 {
      var e := EntryAt(b, pos);
      ScanOrder(b, pos + ENTRY, if IsLongNamePart(e) then Collect(p, e) else Idle);
    }
  }

  /** Nothing that shows is missed: the entries after the first unused one are unused too. */
  lemma {:induction false} ScanFinds(b: seq<byte>, pos: nat, p: Pending, q: nat) returns (i: nat)
    requires LongNamesFit(b) && EndsOnce(b) && PendingOk(p) && pos % ENTRY == 0 && pos <= q
    requires EntryPos(b, q) && Shows(EntryAt(b, q))
    ensures i < |Scan(b, pos, p)| && Scan(b, pos, p)[i].pos == q
    decreases |b| - pos
  {
    hide LfnPut, LfnFits, NameOf, FoundName;
    var e := EntryAt(b, pos);
    assert e[0] == b[pos] && EntryAt(b, q)[0] == b[q];
    if pos == q {
      i := 0;
    } else {
      i := ScanFinds(b, pos + ENTRY, if IsLongNamePart(e) then Collect(p, e) else Idle, q);
      if Shows(e) { i := i + 1; }
    }
  }

  ghost predicate NoLongNames(b: seq<byte>) {
    forall q: nat :: EntryPos(b, q) ==> !IsLongNamePart(EntryAt(b, q))
  }

  /** Without long-name entries every found entry has its short name. */
  lemma {:induction false} ScanShortNames(b: seq<byte>, pos: nat)
    requires LongNamesFit(b) && NoLongNames(b) && pos % ENTRY == 0
    ensures forall i :: 0 <= i < |Scan(b, pos, Idle)| ==>
      EntryPos(b, Scan(b, pos, Idle)[i].pos) && Scan(b, pos, Idle)[i].name == NameOf(EntryAt(b, Scan(b, pos, Idle)[i].pos))
    decreases |b| - pos
  {
    if EntryPos(b, pos) && EntryAt(b, pos)[0] != 0 { ScanShortNames(b, pos + ENTRY); }
  }

  /** The name a node keeps: what fits its name field. */
  function NodeName(name: seq<byte>): (r: seq<byte>)
    ensures |r| < NAME_MAX && r <= name && (r == name || |r| == NAME_MAX - 1)
  {
    if |name| < NAME_MAX then name else name[..NAME_MAX - 1]
  }

  lemma ShortNameFits(e: Entry)
    ensures |NameOf(e)| <= 12 && NodeName(NameOf(e)) == NameOf(e)
  {
    var n := ShortOf(e);
    assert |Trim(n.base)| <= 8 && |Trim(n.ext)| <= 3;
  }

  // ---- Long names in a directory

  /** The entries of `es` stand one after another from `pos` on. */
  ghost predicate Stored(b: seq<byte>, pos: nat, es: seq<Entry>)
    decreases |es|
  {
    es != [] ==> EntryPos(b, pos) && EntryAt(b, pos) == es[0] && Stored(b, pos + ENTRY, es[1..])
  }

  /** The position `n` entries on. */
  function EntriesOn(pos: nat, n: nat): (r: nat)
    requires pos % ENTRY == 0
    ensures r % ENTRY == 0 && r == pos + ENTRY * n
  {
    pos + ENTRY * n
  }

  lemma {:induction false} ScanCollects(b: seq<byte>, pos: nat, es: seq<Entry>, p: Pending)
    requires LongNamesFit(b) && pos % ENTRY == 0 && PendingOk(p) && Stored(b, pos, es) && AllFit(es)
    requires forall i :: 0 <= i < |es| ==> IsLongNamePart(es[i])
    ensures Scan(b, pos, p) == Scan(b, EntriesOn(pos, |es|), CollectAll(es, p))
    decreases |es|
  {
    hide LfnFits, Collect, IsLongNamePart, Scan, LongNamesFit;
    if es != [] {
      assert forall i :: 0 <= i < |es[1..]| ==> es[1..][i] == es[i + 1];
      ScanSkips(b, pos, p);
      ScanCollects(b, pos + ENTRY, es[1..], Collect(p, es[0]));
      assert EntriesOn(pos + ENTRY, |es[1..]|) == EntriesOn(pos, |es|);
    }
  }

  lemma ScanSkips(b: seq<byte>, pos: nat, p: Pending)
    requires LongNamesFit(b) && pos % ENTRY == 0 && PendingOk(p) && EntryPos(b, pos) && IsLongNamePart(EntryAt(b, pos))
    ensures LfnFits(EntryAt(b, pos)) && Scan(b, pos, p) == Scan(b, pos + ENTRY, Collect(p, EntryAt(b, pos)))
  {}

  lemma {:induction false} EncodedAreParts(es: seq<Entry>, name: seq<byte>, j: nat)
    requires EncodesDown(es, name, j)
    ensures forall i :: 0 <= i < |es| ==> IsLongNamePart(es[i])
    decreases j
  {
    if j > 0 { EncodedAreParts(es[1..], name, j - 1); }
  }

  /** A scan finds the entry behind the long-name entries of a name, and gives it exactly that name. */
  lemma ScanFindsLongName(b: seq<byte>, pos: nat, p: Pending, es: seq<Entry>, name: seq<byte>)
    requires LongNamesFit(b) && pos % ENTRY == 0 && PendingOk(p) && LongName(name)
    requires EncodesDown(es, name, EntriesFor(name)) && Stored(b, pos, es)
    requires EntryPos(b, EntriesOn(pos, |es|)) && Shows(EntryAt(b, EntriesOn(pos, |es|)))
    ensures Scan(b, pos, p) != [] && Scan(b, pos, p)[0] == Found(EntriesOn(pos, |es|), name)
  {
    LongNameRebuilt(es, p, name);
    EncodedAreParts(es, name, EntriesFor(name));
    hide EncodesDown, IsLongNamePart, LfnFits;
    ScanCollects(b, pos, es, p);
  }

  // ---- Directories whose cached children are known to agree with the disk

  /**
   * Directory `d` holds no long names and no entries of the driver's that a scan does not show; its cached children
   * are what a scan would find, or it is not loaded yet and small enough for the cache.
   */
  ghost predicate Tracked(t: Tree, c: Cache, d: Ptr) {
    d in c.nodes && c.nodes[d].isDir && PlainDir(t, HeadOf(t.root, c.nodes[d])) && NoWildIn(t, HeadOf(t.root, c.nodes[d])) &&
    if c.nodes[d].loaded then Complete(t, c, d) && NamesAgree(t, c, d)
    else |Scan(t.store[HeadOf(t.root, c.nodes[d])], 0, Idle)| <= MAX_CHILDREN
  }

  /** A directory without long names. */
  ghost predicate PlainDir(t: Tree, h: nat) {
    h in t.dirs && h in t.store && DirBytes(t.store[h]) && NoLongNames(t.store[h])
  }

  /** Every directory but those in `lost` that was tracked still is. */
  ghost predicate KeepTrack(t: Tree, c: Cache, t': Tree, c': Cache, lost: set<Ptr>) {
    forall d {:trigger Tracked(t', c', d)} {:trigger Tracked(t, c, d)} :: Tracked(t, c, d) && d !in lost ==> Tracked(t', c', d)
  }

  lemma KeepTrackTrans(t: Tree, c: Cache, t1: Tree, c1: Cache, t2: Tree, c2: Cache, lost: set<Ptr>)
    requires KeepTrack(t, c, t1, c1, {}) && KeepTrack(t1, c1, t2, c2, lost)
    ensures KeepTrack(t, c, t2, c2, lost)
  {
    forall d | Tracked(t, c, d) && d !in lost
      ensures Tracked(t2, c2, d)
    {
      assert Tracked(t1, c1, d);
    }
  }

  lemma NothingLost(t: Tree, c: Cache, lost: set<Ptr>)
    ensures KeepTrack(t, c, t, c, lost)
  {}

  lemma NoLongNamesSet(b: seq<byte>, pos: nat, e: Entry)
    requires NoLongNames(b) && EntryPos(b, pos) && !IsLongNamePart(e)
    ensures NoLongNames(SetEntry(b, pos, e))
  {
    forall q: nat | EntryPos(b, q)
      ensures !IsLongNamePart(EntryAt(SetEntry(b, pos, e), q))
    {
      EntrySet(b, pos, e, q);
    }
  }

  lemma NoLongNamesGrown(b: seq<byte>, n: nat)
    requires NoLongNames(b) && |b| % ENTRY == 0
    ensures NoLongNames(b + Zeros(n))
  {
    forall q: nat | EntryPos(b + Zeros(n), q)
      ensures !IsLongNamePart(EntryAt(b + Zeros(n), q))
    {
      if q < |b| { EntryBelow(b, Zeros(n), q); } else { EntryAbove(b, n, q); }
    }
  }

  /** Steps that touch no directory's bytes, or only those of the loaded directory `d` without adding long names. */
  ghost predicate DirsTouched(t: Tree, t': Tree, h: nat) {
    && t'.root == t.root && SameEntries(t, t') && DirsSound(t')
    && (forall x :: x in t.dirs && x in t.store ==> x in t'.dirs && x in t'.store && (x != h ==> t'.store[x] == t.store[x]))
    && (PlainDir(t, h) ==> NoLongNames(t'.store[h]))
  }

  lemma TrackedAfterStep(t: Tree, t': Tree, c: Cache, d: Ptr, h: nat)
    requires TreeSound(t) && CacheSound(t, c) && DirsTouched(t, t', h)
    requires h in t.dirs ==> d in c.nodes && c.nodes[d].isDir && c.nodes[d].loaded && h == HeadOf(t.root, c.nodes[d])
    ensures KeepTrack(t, c, t', c, {})
  {
    TreeStep(t, t', c);
    forall x | Tracked(t, c, x)
      ensures Tracked(t', c, x)
    {
      if HeadOf(t.root, c.nodes[x]) == h { HeadUnique(t, c, x, d); }
    }
  }

  /** A directory in which nothing shows. */
  ghost predicate EmptyDir(b: seq<byte>) {
    DirBytes(b) && forall q: nat :: EntryPos(b, q) ==> !Shows(EntryAt(b, q)) && !IsLongNamePart(EntryAt(b, q))
  }

  /** It is tracked from the start. */
  lemma EmptyTracked(t: Tree, c: Cache, d: Ptr, h: nat)
    requires d in c.nodes && c.nodes[d].isDir && !c.nodes[d].loaded && h == HeadOf(t.root, c.nodes[d])
    requires h in t.dirs && h in t.store && EmptyDir(t.store[h]) && NoWildIn(t, h)
    ensures Tracked(t, c, d)
  {
    ScanNothing(t.store[h], 0);
  }

  lemma {:induction false} ScanNothing(b: seq<byte>, pos: nat)
    requires EmptyDir(b) && pos % ENTRY == 0
    ensures Scan(b, pos, Idle) == []
    decreases |b| - pos
  {
    if EntryPos(b, pos) { ScanNothing(b, pos + ENTRY); }
  }

  // ---- Directories that fit the cache

  /** No node of directory `h` is loaded. */
  ghost predicate NotLoaded(c: Cache, root: nat, h: nat) {
    forall d :: d in c.nodes && c.nodes[d].isDir && c.nodes[d].loaded ==> HeadOf(root, c.nodes[d]) != h
  }

  /** A scan finds at most as many entries as a node can list. */
  ghost predicate FitsCache(t: Tree, h: nat) {
    h in t.store && LongNamesFit(t.store[h]) && |Scan(t.store[h], 0, Idle)| <= MAX_CHILDREN
  }

  ghost predicate AllComplete(t: Tree, c: Cache) {
    forall d :: d in c.nodes && c.nodes[d].isDir && c.nodes[d].loaded ==> Complete(t, c, d)
  }

  /** Loaded directories have nodes for all their entries, and the others few enough entries for that. */
  ghost predicate SmallDirs(t: Tree, c: Cache) {
    AllComplete(t, c) && forall h :: h in t.dirs && NotLoaded(c, t.root, h) ==> FitsCache(t, h)
  }

  ghost predicate StaysSmall(t: Tree, c: Cache, t': Tree, c': Cache) { SmallDirs(t, c) ==> SmallDirs(t', c') }

  /** Directories that are not loaded are as they were, or empty. */
  ghost predicate UnloadedSame(t: Tree, c: Cache, t': Tree, c': Cache) {
    forall h :: h in t'.dirs && NotLoaded(c', t'.root, h) ==>
      h in t'.store && ((h in t.dirs && NotLoaded(c, t.root, h) && h in t.store && t'.store[h] == t.store[h]) || EmptyDir(t'.store[h]))
  }

  lemma SmallKept(t: Tree, c: Cache, t': Tree, c': Cache)
    requires (AllComplete(t, c) ==> AllComplete(t', c')) && UnloadedSame(t, c, t', c')
    ensures StaysSmall(t, c, t', c')
  {
    if SmallDirs(t, c) {
      forall h | h in t'.dirs && NotLoaded(c', t'.root, h)
        ensures FitsCache(t', h)
      {
        if EmptyDir(t'.store[h]) { ScanNothing(t'.store[h], 0); } else { assert FitsCache(t, h); }
      }
    }
  }

  /** Steps that touch at most the bytes of a loaded directory, and add empty ones. */
  lemma SmallAfterStep(t: Tree, t': Tree, c: Cache, d: Ptr, h: nat)
    requires TreeSound(t) && CacheSound(t, c) && DirsTouched(t, t', h)
    requires h in t.dirs ==> d in c.nodes && c.nodes[d].isDir && c.nodes[d].loaded && h == HeadOf(t.root, c.nodes[d])
    requires forall x :: x in t'.dirs && x !in t.dirs ==> x in t'.store && EmptyDir(t'.store[x])
    ensures StaysSmall(t, c, t', c)
  {
    TreeStep(t, t', c);
    SmallKept(t, c, t', c);
  }
}
