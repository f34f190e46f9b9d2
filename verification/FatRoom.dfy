/** How long a file can become: the clusters it has and the free ones. */
module FatRoom {
  import opened FatVolume
  import opened FatTable
  import opened FatChains
  import opened FatFile
  import opened FatStore

  /** The clusters below `limit` that nobody has. */
  ghost function FreeIn(l: Ledger, limit: nat): set<nat> { set c: nat | 2 <= c < limit && c !in l.owner && c !in l.reserved }

  ghost function ChainSize(l: Ledger, f: nat): nat { if f in l.chains then |l.chains[f]| else 0 }

  /** How many clusters chain `f` could have. */
  ghost function RoomIn(l: Ledger, limit: nat, f: nat): nat { |FreeIn(l, limit)| + ChainSize(l, f) }

  /** The clusters that chain `f` gained. */
  ghost function Gained(l: Ledger, l': Ledger, f: nat): seq<nat>
    requires f in l'.chains && (f in l.chains ==> l.chains[f] <= l'.chains[f])
  {
    l'.chains[f][ChainSize(l, f)..]
  }

  function Elements(s: seq<nat>): set<nat> { set c | c in s }

  lemma {:induction false} ElementCount(s: seq<nat>)
    requires Distinct(s)
    ensures |Elements(s)| == |s|
  {
    if s == [] {
      assert Elements(s) == {};
    } else {
      var rest := s[1..];
      ElementCount(rest);
      assert s == [s[0]] + rest;
      assert Elements(s) == {s[0]} + Elements(rest);
      forall j | 0 <= j < |rest|
        ensures rest[j] != s[0]
      {
        assert rest[j] == s[j + 1];
      }
    }
  }

  lemma PlaceOf(l: Ledger, c: nat) returns (j: nat)
    requires OwnerMatches(l) && c in l.owner
    ensures l.owner[c] in l.chains && j < |l.chains[l.owner[c]]| && l.chains[l.owner[c]][j] == c
  {
    assert c in l.chains[l.owner[c]];
    j :| 0 <= j < |l.chains[l.owner[c]]| && l.chains[l.owner[c]][j] == c;
  }

  lemma OwnerAt(l: Ledger, k: nat, j: nat)
    requires OwnerMatches(l) && k in l.chains && j < |l.chains[k]|
    ensures l.chains[k][j] in l.owner && l.owner[l.chains[k][j]] == k
  {
    assert l.chains[k][j] in l.chains[k];
  }

  /** A cluster keeps its owner. */
  lemma StillOwned(l: Ledger, l': Ledger, f: nat, c: nat) returns (j: nat)
    requires OwnerMatches(l) && OwnerMatches(l') && LedgerStep(l, l', f) && c in l.owner
    ensures c in l'.owner && l'.owner[c] == l.owner[c] && l.owner[c] in l.chains
    ensures j < ChainSize(l, l.owner[c]) && l.owner[c] in l'.chains && j < |l'.chains[l.owner[c]]| && l'.chains[l.owner[c]][j] == c
  {
    j := PlaceOf(l, c);
    hide OwnerMatches;
    Longer(l, l', f, l.owner[c]);
    OwnerAt(l', l.owner[c], j);
  }

  lemma Longer(l: Ledger, l': Ledger, f: nat, k: nat)
    requires LedgerStep(l, l', f) && k in l.chains
    ensures k in l'.chains && l.chains[k] <= l'.chains[k]
  {}

  lemma NotGained(l: Ledger, l': Ledger, f: nat, c: nat)
    requires OwnerMatches(l) && OwnerMatches(l') && LedgerStep(l, l', f) && f in l'.chains && Distinct(l'.chains[f]) && c in l.owner
    ensures c !in Gained(l, l', f)
  {
    hide LedgerStep, OwnerMatches;
    StepLonger(l, l', f);
    var j := StillOwned(l, l', f, c);
    forall i | ChainSize(l, f) <= i < |l'.chains[f]|
      ensures l'.chains[f][i] != c
    {
      OwnerAt(l', f, i);
    }
  }

  lemma StepLonger(l: Ledger, l': Ledger, f: nat)
    requires LedgerStep(l, l', f)
    ensures f in l'.chains && f in l.chains ==> l.chains[f] <= l'.chains[f]
  {}

  lemma GainedOwned(fat': seq<nat>, l: Ledger, l': Ledger, f: nat, c: nat)
    requires Owned(fat', l') && LedgerStep(l, l', f) && f in l'.chains && c in Gained(l, l', f)
    ensures 2 <= c < |fat'| && c in l'.owner && l'.owner[c] == f && c !in l'.reserved
  {
    var i :| ChainSize(l, f) <= i < |l'.chains[f]| && l'.chains[f][i] == c;
    ChainLink(fat', l'.chains[f], i);
  }

  lemma StillFree(l: Ledger, l': Ledger, f: nat, c: nat)
    requires OwnerMatches(l) && OwnerMatches(l') && LedgerStep(l, l', f) && f in l'.chains && c !in l.owner && c in l'.owner
    ensures c in Gained(l, l', f)
  {
    StepLonger(l, l', f);
    var j := PlaceOf(l', c);
    OnlyGrowth(l, l', f, l'.owner[c]);
    if l'.owner[c] in l.chains && j < |l.chains[l'.owner[c]]| { OwnerAt(l, l'.owner[c], j); }
    hide OwnerMatches, LedgerStep;
    assert Gained(l, l', f)[j - ChainSize(l, f)] == c;
  }

  lemma OnlyGrowth(l: Ledger, l': Ledger, f: nat, k: nat)
    requires LedgerStep(l, l', f) && k in l'.chains
    ensures k != f ==> k in l.chains && l'.chains[k] == l.chains[k]
    ensures k in l.chains ==> l.chains[k] <= l'.chains[k]
  {}

  /** So the room there is for it does not change. */
  lemma RoomKept(fat: seq<nat>, l: Ledger, fat': seq<nat>, l': Ledger, f: nat)
    requires Owned(fat, l) && Owned(fat', l') && |fat'| == |fat| && LedgerStep(l, l', f)
    ensures RoomIn(l', |fat|, f) == RoomIn(l, |fat|, f)
  {
    hide LedgerStep, OwnerMatches, WellChained, UsedExactly, LinksInside, FreeIn;
    if f in l'.chains {
      GainedDistinct(fat', l, l', f);
      ElementCount(Gained(l, l', f));
      FreeSplit(fat, l, fat', l', f);
    } else {
      SameOwners(fat, l, fat', l', f);
    }
  }

  lemma GainedDistinct(fat': seq<nat>, l: Ledger, l': Ledger, f: nat)
    requires Owned(fat', l') && LedgerStep(l, l', f) && f in l'.chains
    ensures f in l.chains ==> l.chains[f] <= l'.chains[f]
    ensures Distinct(l'.chains[f]) && Distinct(Gained(l, l', f)) && ChainSize(l, f) + |Gained(l, l', f)| == ChainSize(l', f)
  {
    ChainDistinct(fat', l'.chains[f]);
  }

  /** What was free is free or was gained. */
  lemma FreeSplit(fat: seq<nat>, l: Ledger, fat': seq<nat>, l': Ledger, f: nat)
    requires Owned(fat, l) && Owned(fat', l') && |fat'| == |fat| && LedgerStep(l, l', f) && f in l'.chains
    ensures f in l.chains ==> l.chains[f] <= l'.chains[f]
    ensures FreeIn(l, |fat|) == FreeIn(l', |fat|) + Elements(Gained(l, l', f)) && FreeIn(l', |fat|) !! Elements(Gained(l, l', f))
  {
    hide LedgerStep, OwnerMatches, WellChained, UsedExactly, LinksInside;
    GainedDistinct(fat', l, l', f);
    SameReserved(l, l', f);
    forall c: nat
      ensures c in FreeIn(l, |fat|) <==> c in FreeIn(l', |fat|) + Elements(Gained(l, l', f))
      ensures c in Gained(l, l', f) ==> c in l'.owner
    {
      if c in Gained(l, l', f) { GainedOwned(fat', l, l', f, c); }
      if c in l.owner {
        var j := StillOwned(l, l', f, c);
        NotGained(l, l', f, c);
      } else if c in l'.owner {
        StillFree(l, l', f, c);
      }
    }
  }

  lemma SameReserved(l: Ledger, l': Ledger, f: nat)
    requires LedgerStep(l, l', f)
    ensures l'.reserved == l.reserved
  {}

  lemma SameOwners(fat: seq<nat>, l: Ledger, fat': seq<nat>, l': Ledger, f: nat)
    requires Owned(fat, l) && Owned(fat', l') && LedgerStep(l, l', f) && f !in l'.chains
    ensures FreeIn(l', |fat|) == FreeIn(l, |fat|) && ChainSize(l, f) == ChainSize(l', f)
  {
    hide LedgerStep, WellChained, UsedExactly, LinksInside, OwnerMatches;
    SameChains(l, l', f);
    forall c: nat
      ensures c in l.owner <==> c in l'.owner
    {
      OwnedIff(l, l', c);
    }
  }

  lemma SameChains(l: Ledger, l': Ledger, f: nat)
    requires LedgerStep(l, l', f) && f !in l'.chains
    ensures l'.chains == l.chains && l'.reserved == l.reserved
  {}

  lemma OwnedIff(l: Ledger, l': Ledger, c: nat)
    requires OwnerMatches(l) && OwnerMatches(l') && l'.chains == l.chains
    ensures c in l.owner <==> c in l'.owner
  {}

  lemma NoneFreeIn(vol: Volume, l: Ledger)
    requires Sound(vol, l) && NoneFree(vol)
    ensures FreeIn(l, vol.g.Limit()) == {}
  {
    forall c: nat | 2 <= c < vol.g.Limit()
      ensures c in l.owner || c in l.reserved
    {
      assert vol.g.Cluster(c);
    }
  }

  lemma {:induction false} BaseMonotone(bpc: nat, a: nat, b: nat)
    requires a <= b
    ensures Base(bpc, a) <= Base(bpc, b)
    decreases b
  {
    if a < b { BaseMonotone(bpc, a, b - 1); }
  }

  /** What goes into a chain, which was made long enough or as long as the free clusters allowed, is what the room allows. */
  lemma RoomDecides(vol: Volume, l: Ledger, f: nat, len: nat, offset: nat, count: nat)
    requires Sound(vol, l) && len == Base(vol.g.BytesPerCluster(), ChainSize(l, f))
    requires offset + count <= len || NoneFree(vol)
    ensures Fitting(len, offset, count) == Fitting(Base(vol.g.BytesPerCluster(), RoomIn(l, vol.g.Limit(), f)), offset, count)
  {
    hide Owned, FreeIn, NoneFree;
    if offset + count <= len {
      BaseMonotone(vol.g.BytesPerCluster(), ChainSize(l, f), RoomIn(l, vol.g.Limit(), f));
    } else {
      NoneFreeIn(vol, l);
    }
  }
}
