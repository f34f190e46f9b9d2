/** The directory tree on disk: which entries refer to which chains, and what keeps that sound. */
module FatTree {
  import opened Bytes
  import opened FatEntries
  import opened FatLongNames

  /** An entry's place: a directory, named by its first cluster, and a byte position in it. */
  datatype Slot = Slot(dir: nat, pos: nat)

  /** Where a chain's entry is. If that entry cannot be relied on, `only` is the one node that knows the chain, and not 0. */
  datatype Ref = Ref(slot: Slot, only: nat)

  /**
   * The bytes of every chain by its first cluster, the chains that are directories, and for each chain the one
   * place that may refer to it. Wild slots are those into which the driver put an entry that no scan shows; the
   * next entry may go into the same slot, so that two nodes write to it. Each is kept with its directory's node.
   */
  datatype Tree = Tree(root: nat, store: map<nat, seq<byte>>, dirs: set<nat>, refs: map<nat, Ref>, wild: map<Slot, nat>)

  ghost predicate Inside(t: Tree, s: Slot) {
    s.dir in t.dirs && s.dir in t.store && EntryPos(t.store[s.dir], s.pos)
  }

  ghost function EntryOf(t: Tree, s: Slot): Entry
    requires Inside(t, s)
  {
    EntryAt(t.store[s.dir], s.pos)
  }

  /** A directory scan finds a file or directory here. */
  ghost predicate Seen(t: Tree, s: Slot) { Inside(t, s) && Shows(EntryOf(t, s)) }

  /** The entry refers to no chain, or is the only one that refers to it. */
  ghost predicate EntryOwns(t: Tree, s: Slot, e: Entry) {
    var f := FirstOf(e);
    f == 0 || (f in t.store && f != t.root && f in t.refs && t.refs[f].slot == s)
  }

  /** The entry is that of an empty file, or agrees with its chain. */
  ghost predicate EntryTrue(t: Tree, e: Entry) {
    var f := FirstOf(e);
    if f == 0 then !IsDir(e) && SizeOf(e) == 0 else
    && f in t.store && f in t.refs && t.refs[f].only == 0 && (f in t.dirs <==> IsDir(e))
    && (!IsDir(e) ==> SizeOf(e) <= |t.store[f]|)
  }

  ghost predicate EntrySound(t: Tree, s: Slot, e: Entry) { EntryOwns(t, s, e) && (s !in t.wild ==> EntryTrue(t, e)) }

  ghost predicate EntriesSound(t: Tree) {
    forall s :: Seen(t, s) ==> EntrySound(t, s, EntryOf(t, s))
  }

  /** After the first unused entry of a directory there are only unused ones. */
  ghost predicate EndsOnce(b: seq<byte>) {
    forall q: nat, r: nat :: EntryPos(b, q) && EntryPos(b, r) && q < r && b[q] == 0 ==> b[r] == 0
  }

  /** The long-name entries of a directory are well formed. */
  ghost predicate LongNamesFit(b: seq<byte>) {
    forall q: nat :: EntryPos(b, q) && IsLongNamePart(EntryAt(b, q)) ==> LfnFits(EntryAt(b, q))
  }

  ghost predicate DirBytes(b: seq<byte>) { |b| % ENTRY == 0 && EndsOnce(b) && LongNamesFit(b) }

  ghost predicate DirsSound(t: Tree) {
    forall d :: d in t.dirs ==> d in t.store && DirBytes(t.store[d])
  }

  /** Wild slots are in use or marked deleted, and hold no part of a long name. */
  ghost predicate WildSound(t: Tree) {
    forall s :: s in t.wild ==> Inside(t, s) && t.store[s.dir][s.pos] != 0 && AttrOf(EntryOf(t, s)) != ATTR_LFN
  }

  ghost predicate TreeSound(t: Tree) {
    t.root in t.dirs && 0 !in t.store && DirsSound(t) && EntriesSound(t) && WildSound(t)
  }

  ghost predicate Unreferenced(t: Tree, f: nat) {
    forall s :: Seen(t, s) ==> FirstOf(EntryOf(t, s)) != f
  }

  ghost predicate RefersTo(t: Tree, s: Slot, h: nat) { Seen(t, s) && FirstOf(EntryOf(t, s)) == h }

  /** An entry that a scan finds refers to chain `h`. */
  ghost predicate Referred(t: Tree, h: nat) { exists s :: RefersTo(t, s, h) }

  /** No chain is lost: every one but the root's, and possibly `but`, has its entry. */
  ghost predicate AllReferred(t: Tree, but: nat) {
    forall h {:trigger Referred(t, h)} :: h in t.store && h != t.root && h != but ==> Referred(t, h)
  }

  /** Chains may have been added or become longer; directories stay directories. */
  ghost predicate ChainsStay(t: Tree, t': Tree) {
    forall h :: h in t.store ==> h in t'.store && |t'.store[h]| >= |t.store[h]| && (h in t'.dirs <==> h in t.dirs)
  }

  /** Every entry is as it was, and the two trees show the same ones. */
  ghost predicate SameEntries(t: Tree, t': Tree) {
    && t'.refs == t.refs && t'.wild == t.wild && ChainsStay(t, t')
    && (forall s :: Seen(t', s) ==> Seen(t, s))
    && (forall s :: Inside(t, s) ==> Inside(t', s) && EntryOf(t', s) == EntryOf(t, s))
  }

  // ---- The steps the driver takes

  function PutChain(t: Tree, f: nat, b: seq<byte>): Tree { t.(store := t.store[f := b]) }

  /** The bytes of a file may change as long as they do not get fewer. */
  lemma FileWritten(t: Tree, f: nat, b: seq<byte>)
    requires TreeSound(t) && f in t.store && f !in t.dirs && |b| >= |t.store[f]|
    ensures TreeSound(PutChain(t, f, b)) && SameEntries(t, PutChain(t, f, b))
  {
    SameWhenDirsSame(t, PutChain(t, f, b));
  }

  lemma FileAdded(t: Tree, c: nat, b: seq<byte>)
    requires TreeSound(t) && c !in t.store && c != 0
    ensures TreeSound(PutChain(t, c, b)) && SameEntries(t, PutChain(t, c, b)) && Unreferenced(PutChain(t, c, b), c)
  {
    assert c !in t.dirs;
    SameWhenDirsSame(t, PutChain(t, c, b));
  }

  lemma SameWhenDirsSame(t: Tree, t': Tree)
    requires t'.dirs == t.dirs && t'.refs == t.refs && t'.wild == t.wild && ChainsStay(t, t')
    requires forall d :: d in t.dirs ==> (d in t'.store <==> d in t.store) && (d in t.store ==> t'.store[d] == t.store[d])
    ensures SameEntries(t, t')
  {}

  lemma DirAdded(t: Tree, c: nat, b: seq<byte>)
    requires TreeSound(t) && c !in t.store && c != 0
    requires DirBytes(b) && forall q: nat :: EntryPos(b, q) ==> !Shows(EntryAt(b, q))
    ensures var t' := PutChain(t, c, b).(dirs := t.dirs + {c});
      TreeSound(t') && SameEntries(t, t') && Unreferenced(t', c)
  {
    var t' := PutChain(t, c, b).(dirs := t.dirs + {c});
    forall s
      ensures Seen(t', s) ==> Seen(t, s)
      ensures Inside(t, s) ==> Inside(t', s) && EntryOf(t', s) == EntryOf(t, s)
    {
      assert Inside(t, s) || Seen(t', s) ==> s.dir != c;
    }
  }

  lemma DirGrown(t: Tree, d: nat, n: nat)
    requires TreeSound(t) && d in t.dirs && n % ENTRY == 0
    ensures TreeSound(PutChain(t, d, t.store[d] + Zeros(n))) && SameEntries(t, PutChain(t, d, t.store[d] + Zeros(n)))
  {
    var b := t.store[d];
    var t' := PutChain(t, d, b + Zeros(n));
    forall q: nat | EntryPos(b + Zeros(n), q)
      ensures if q < |b| then EntryPos(b, q) && EntryAt(b + Zeros(n), q) == EntryAt(b, q) else EntryAt(b + Zeros(n), q) == Zeros(ENTRY)
    {
      if q < |b| { EntryBelow(b, Zeros(n), q); } else { EntryAbove(b, n, q); }
    }
    DirBytesGrown(b, n);
    forall s
      ensures Seen(t', s) ==> Seen(t, s)
      ensures Inside(t, s) ==> Inside(t', s) && EntryOf(t', s) == EntryOf(t, s)
    {
      if s.dir == d && Inside(t, s) { EntryBelow(b, Zeros(n), s.pos); }
      if s.dir == d && Seen(t', s) { assert EntryPos(b + Zeros(n), s.pos); }
    }
  }

  lemma DirBytesGrown(b: seq<byte>, n: nat)
    requires DirBytes(b) && n % ENTRY == 0
    ensures DirBytes(b + Zeros(n))
  {
    EndsOnceGrown(b, n);
    forall q: nat | EntryPos(b + Zeros(n), q) && IsLongNamePart(EntryAt(b + Zeros(n), q))
      ensures LfnFits(EntryAt(b + Zeros(n), q))
    {
      if q < |b| { EntryBelow(b, Zeros(n), q); } else { EntryAbove(b, n, q); }
    }
  }

  lemma EndsOnceGrown(b: seq<byte>, n: nat)
    requires EndsOnce(b) && |b| % ENTRY == 0
    ensures EndsOnce(b + Zeros(n))
  {
    forall q: nat, r: nat | EntryPos(b + Zeros(n), q) && EntryPos(b + Zeros(n), r) && q < r && (b + Zeros(n))[q] == 0
      ensures (b + Zeros(n))[r] == 0
    {
      if r < |b| { assert EntryPos(b, q) && EntryPos(b, r); }
    }
  }

  ghost function PutBytes(t: Tree, s: Slot, e: Entry): map<nat, seq<byte>>
    requires Inside(t, s)
  {
    t.store[s.dir := SetEntry(t.store[s.dir], s.pos, e)]
  }

  /**
   * The tree once the entry in slot `s` is `e`. Unless `f` is 0, chain `f` now has its entry there; `only` is 0, or
   * the node that alone knows the chain.
   */
  ghost function PutEntry(t: Tree, s: Slot, e: Entry, f: nat, only: nat): (t': Tree)
    requires Inside(t, s)
    ensures t'.root == t.root && t'.dirs == t.dirs && t'.wild == t.wild && t'.store == PutBytes(t, s, e)
  {
    t.(store := PutBytes(t, s, e),
       refs := if f != 0 then t.refs[f := Ref(s, only)] else t.refs)
  }

  /** No entry below `pos` ends the directory. */
  ghost predicate OpenBelow(b: seq<byte>, pos: nat) {
    forall q: nat :: EntryPos(b, q) && q < pos ==> b[q] != 0
  }

  lemma DirBytesSet(b: seq<byte>, pos: nat, e: Entry)
    requires DirBytes(b) && EntryPos(b, pos) && e[0] != 0 && (b[pos] != 0 || OpenBelow(b, pos)) && !IsLongNamePart(e)
    ensures DirBytes(SetEntry(b, pos, e))
  {
    EndsOnceSet(b, pos, e);
    forall q: nat | EntryPos(b, q)
      ensures EntryAt(SetEntry(b, pos, e), q) == if q == pos then e else EntryAt(b, q)
    {
      EntrySet(b, pos, e, q);
    }
  }

  lemma EndsOnceSet(b: seq<byte>, pos: nat, e: Entry)
    requires EndsOnce(b) && EntryPos(b, pos) && e[0] != 0 && (b[pos] != 0 || OpenBelow(b, pos))
    ensures EndsOnce(SetEntry(b, pos, e))
  {
    var b' := SetEntry(b, pos, e);
    forall q: nat, r: nat | EntryPos(b', q) && EntryPos(b', r) && q < r && b'[q] == 0
      ensures b'[r] == 0
    {
      assert EntryPos(b, q) && EntryPos(b, r);
      FirstByteSet(b, pos, e, q);
      FirstByteSet(b, pos, e, r);
    }
  }

  lemma FirstByteSet(b: seq<byte>, pos: nat, e: Entry, q: nat)
    requires EntryPos(b, pos) && EntryPos(b, q)
    ensures SetEntry(b, pos, e)[q] == if q == pos then e[0] else b[q]
  {
    if q != pos { assert q < pos || pos + ENTRY <= q; }
  }

  /** What an entry's slot shows after one entry is set. */
  lemma SeenAfterPut(t: Tree, s: Slot, e: Entry, f: nat, only: nat, r: Slot)
    requires Inside(t, s)
    ensures Inside(PutEntry(t, s, e, f, only), r) <==> Inside(t, r)
    ensures Inside(t, r) ==> EntryOf(PutEntry(t, s, e, f, only), r) == if r == s then e else EntryOf(t, r)
    ensures r != s ==> (Seen(PutEntry(t, s, e, f, only), r) <==> Seen(t, r))
  {
    if Inside(t, r) && r.dir == s.dir { EntrySet(t.store[s.dir], s.pos, e, r.pos); }
  }

  /** Chain `f`, which slot `s` gets, is in no other slot. */
  ghost predicate FreeFor(t: Tree, s: Slot, f: nat) {
    f != 0 ==> Unreferenced(t, f) || RefersTo(t, s, f)
  }

  lemma EntryPut(t: Tree, s: Slot, e: Entry, f: nat, only: nat)
    requires TreeSound(t) && Inside(t, s) && e[0] != 0 && AttrOf(e) != ATTR_LFN && FreeFor(t, s, f)
    requires t.store[s.dir][s.pos] != 0 || OpenBelow(t.store[s.dir], s.pos)
    requires Shows(e) ==> EntrySound(PutEntry(t, s, e, f, only), s, e)
    ensures TreeSound(PutEntry(t, s, e, f, only))
  {
    var t' := PutEntry(t, s, e, f, only);
    DirBytesSet(t.store[s.dir], s.pos, e);
    forall r | Seen(t', r)
      ensures EntrySound(t', r, EntryOf(t', r))
    {
      SeenAfterPut(t, s, e, f, only, r);
      if r != s { assert EntrySound(t, r, EntryOf(t, r)); }
    }
    forall r | r in t'.wild
      ensures Inside(t', r) && t'.store[r.dir][r.pos] != 0 && AttrOf(EntryOf(t', r)) != ATTR_LFN
    {
      SeenAfterPut(t, s, e, f, only, r);
      if r.dir == s.dir { FirstByteSet(t.store[s.dir], s.pos, e, r.pos); }
    }
  }

  /** Slot `s` of the directory of node `d` holds an entry that no scan shows, and that is no part of a long name. */
  function Spoil(t: Tree, s: Slot, d: nat): Tree { t.(wild := t.wild[s := d]) }

  lemma Spoiled(t: Tree, s: Slot, d: nat)
    requires TreeSound(t) && Inside(t, s) && t.store[s.dir][s.pos] != 0 && AttrOf(EntryOf(t, s)) != ATTR_LFN
    ensures TreeSound(Spoil(t, s, d))
  {
    var t' := Spoil(t, s, d);
    forall r | Seen(t', r)
      ensures EntrySound(t', r, EntryOf(t', r))
    {
      assert Seen(t, r);
    }
  }

  /**
   * The tree without chain `f`. Chains whose entry went with it, but whose node is in `strays`, are now known to
   * that node alone.
   */
  ghost function DropTree(t: Tree, f: nat, strays: map<Slot, nat>): Tree {
    t.(store := t.store - {f}, dirs := t.dirs - {f},
       refs := map h | h in t.refs :: LeftRef(t.refs[h], f, strays),
       wild := map s | s in t.wild && s.dir != f :: t.wild[s])
  }

  function LeftRef(r: Ref, f: nat, strays: map<Slot, nat>): Ref {
    if r.only == 0 && r.slot.dir == f && r.slot in strays then Ref(r.slot, strays[r.slot]) else r
  }

  lemma InsideDropped(t: Tree, f: nat, strays: map<Slot, nat>, s: Slot)
    ensures Inside(DropTree(t, f, strays), s) <==> Inside(t, s) && s.dir != f
    ensures Inside(t, s) && s.dir != f ==> EntryOf(DropTree(t, f, strays), s) == EntryOf(t, s)
    ensures s in DropTree(t, f, strays).wild <==> s in t.wild && s.dir != f
  {}

  lemma ChainGone(t: Tree, f: nat, strays: map<Slot, nat>)
    requires TreeSound(t) && f != t.root && Unreferenced(t, f)
    ensures TreeSound(DropTree(t, f, strays))
  {
    var t' := DropTree(t, f, strays);
    forall s | Seen(t', s)
      ensures EntrySound(t', s, EntryOf(t', s))
    {
      assert Seen(t, s) && EntrySound(t, s, EntryOf(t, s));
    }
  }

  /** Every entry the driver made shows. */
  ghost predicate Tidy(t: Tree) { t.wild == map[] }

  /** Directory `h` has no wild slots. */
  ghost predicate NoWildIn(t: Tree, h: nat) { forall s :: s in t.wild ==> s.dir != h }

  // ---- No chain is lost

  /** Steps that change no entry lose nothing. */
  lemma ReferredSame(t: Tree, t': Tree, but: nat, but': nat)
    requires AllReferred(t, but) && SameEntries(t, t') && t'.root == t.root
    requires forall h :: h in t'.store && h != t.root && h != but' ==> h in t.store && h != but
    ensures AllReferred(t', but')
  {
    forall h | h in t'.store && h != t'.root && h != but'
      ensures Referred(t', h)
    {
      assert Referred(t, h);
      var s :| RefersTo(t, s, h);
      assert RefersTo(t', s, h);
    }
  }

  /** If no chain was added either, as many are lost as before. */
  lemma ReferredIff(t: Tree, t': Tree)
    requires SameEntries(t, t') && t'.root == t.root && t'.store.Keys == t.store.Keys
    ensures AllReferred(t', 0) <==> AllReferred(t, 0)
  {
    forall h
      ensures Referred(t', h) <==> Referred(t, h)
    {
      forall s
        ensures RefersTo(t', s, h) <==> RefersTo(t, s, h)
      {}
    }
  }

  /**
   * A chain `f` that had no entry, if it is not 0, gets the one in slot `s`. No chain is lost exactly if a scan finds
   * that entry, unless there is no chain, and no other chain had it.
   */
  lemma ReferredAfterPut(t: Tree, s: Slot, e: Entry, f: nat, only: nat)
    requires TreeSound(t) && AllReferred(t, f) && Inside(t, s) && FirstOf(e) == f && f != t.root
    requires f != 0 ==> f in t.store && Unreferenced(t, f)
    ensures AllReferred(PutEntry(t, s, e, f, only), 0) <==>
      (f == 0 || Shows(e)) && (Seen(t, s) ==> FirstOf(EntryOf(t, s)) == 0)
  {
    var t' := PutEntry(t, s, e, f, only);
    SeenAfterPut(t, s, e, f, only, s);
    if f != 0 && Shows(e) { assert RefersTo(t', s, f); }
    if Seen(t, s) && FirstOf(EntryOf(t, s)) != 0 {
      OneEntry(t, s, s, FirstOf(EntryOf(t, s)));
      OnlyEntryReplaced(t, s, e, f, only);
    } else if f != 0 && !Shows(e) {
      UnseenPut(t, s, e, f, only);
    } else {
      forall h | h in t'.store && h != t'.root && h != 0
        ensures Referred(t', h)
      {
        if h != f { StillRefers(t, s, e, f, only, h); }
      }
    }
  }

  lemma StillRefers(t: Tree, s: Slot, e: Entry, f: nat, only: nat, h: nat)
    requires Inside(t, s) && Referred(t, h) && !RefersTo(t, s, h)
    ensures Referred(PutEntry(t, s, e, f, only), h)
  {
    var r :| RefersTo(t, r, h);
    SeenAfterPut(t, s, e, f, only, r);
    assert RefersTo(PutEntry(t, s, e, f, only), r, h);
  }

  lemma UnseenPut(t: Tree, s: Slot, e: Entry, f: nat, only: nat)
    requires Inside(t, s) && f in t.store && f != t.root && f != 0 && !Shows(e) && Unreferenced(t, f)
    ensures !AllReferred(PutEntry(t, s, e, f, only), 0)
  {
    var t' := PutEntry(t, s, e, f, only);
    if Referred(t', f) {
      var r :| RefersTo(t', r, f);
      SeenAfterPut(t, s, e, f, only, r);
    }
    assert f in t'.store;
  }

  /** A chain has one entry only. */
  lemma OneEntry(t: Tree, s: Slot, r: Slot, g: nat)
    requires TreeSound(t) && RefersTo(t, s, g) && RefersTo(t, r, g) && g != 0
    ensures s == r && g in t.store && g != t.root
  {
    assert EntrySound(t, s, EntryOf(t, s)) && EntrySound(t, r, EntryOf(t, r));
  }

  lemma OnlyEntryReplaced(t: Tree, s: Slot, e: Entry, f: nat, only: nat)
    requires TreeSound(t) && Seen(t, s) && FirstOf(EntryOf(t, s)) != 0 && FirstOf(e) == f && f != FirstOf(EntryOf(t, s))
    ensures !AllReferred(PutEntry(t, s, e, f, only), 0)
  {
    var t', g := PutEntry(t, s, e, f, only), FirstOf(EntryOf(t, s));
    OneEntry(t, s, s, g);
    if Referred(t', g) {
      var r :| RefersTo(t', r, g);
      SeenAfterPut(t, s, e, f, only, r);
      OneEntry(t, s, r, g);
    }
    assert g in t'.store;
  }

  /** An entry that goes on referring to the same chain changes nothing about that. */
  lemma ReferredAfterEdit(t: Tree, s: Slot, e: Entry, only: nat)
    requires Inside(t, s) && FirstOf(e) == FirstOf(EntryOf(t, s)) && Shows(e) == Shows(EntryOf(t, s))
    ensures AllReferred(PutEntry(t, s, e, 0, only), 0) <==> AllReferred(t, 0)
  {
    var t' := PutEntry(t, s, e, 0, only);
    forall h
      ensures Referred(t', h) <==> Referred(t, h)
    {
      forall r
        ensures RefersTo(t', r, h) <==> RefersTo(t, r, h)
      {
        SeenAfterPut(t, s, e, 0, only, r);
      }
    }
  }

  /** The entry in slot `s` and those in chain `f` refer to no chain but `f`. */
  ghost predicate LosesNone(t: Tree, s: Slot, f: nat) {
    forall r :: Seen(t, r) && (r == s || r.dir == f) ==> FirstOf(EntryOf(t, r)) == 0 || FirstOf(EntryOf(t, r)) == f
  }

  /** No entry in the chain of directory `f` refers to a chain. */
  ghost predicate HoldsNone(t: Tree, f: nat) {
    forall r :: Seen(t, r) && r.dir == f ==> FirstOf(EntryOf(t, r)) == 0
  }
}
