/** Who owns which cluster: well-formed chains, the allocation invariant, and the bytes a chain holds. */
module FatChains {
  import opened Bytes
  import opened FatVolume
  import opened FatTable

  /** `ch` is the whole chain starting at `ch[0]`: distinct clusters linked in order, ended by an end-of-chain mark. */
  ghost predicate IsChain(fat: seq<nat>, ch: seq<nat>) {
    && |ch| > 0
    && 2 <= ch[0] < |fat|
    && ch[0] !in ch[1..]
    && if |ch| == 1 then EOC <= fat[ch[0]] else fat[ch[0]] == ch[1] && IsChain(fat, ch[1..])
  }

  predicate Distinct(ch: seq<nat>) {
    forall i, j :: 0 <= i < j < |ch| ==> ch[i] != ch[j]
  }

  lemma {:induction false} ChainLink(fat: seq<nat>, ch: seq<nat>, k: nat)
    requires IsChain(fat, ch) && k < |ch|
    ensures 2 <= ch[k] < |fat| && ch[k] in ch
    ensures if k == |ch| - 1 then EOC <= fat[ch[k]] else fat[ch[k]] == ch[k + 1]
  {
    if k > 0 { ChainLink(fat, ch[1..], k - 1); }
  }

  lemma {:induction false} ChainDistinct(fat: seq<nat>, ch: seq<nat>)
    requires IsChain(fat, ch)
    ensures Distinct(ch)
  {
    if |ch| > 1 {
      ChainDistinct(fat, ch[1..]);
      assert forall i :: 1 <= i < |ch| ==> ch[i] == ch[1..][i - 1];
    }
  }

  /** The live chains by first cluster, the chain each cluster belongs to, and the clusters nobody may use. */
  datatype Ledger = Ledger(chains: map<nat, seq<nat>>, owner: map<nat, nat>, reserved: set<nat>)

  /**
   * The allocation invariant: live chains are well formed and disjoint, and the non-free entries are
   * exactly their clusters and the reserved ones.
   */
  ghost predicate Owned(fat: seq<nat>, l: Ledger) {
    && |fat| <= BAD
    && LinksInside(fat)
    && WellChained(fat, l.chains)
    && OwnerMatches(l)
    && UsedExactly(fat, l)
  }

  ghost predicate WellChained(fat: seq<nat>, chains: map<nat, seq<nat>>) {
    forall h :: h in chains ==> IsChain(fat, chains[h]) && chains[h][0] == h
  }

  ghost predicate OwnerMatches(l: Ledger) {
    && (forall c :: c in l.owner ==> l.owner[c] in l.chains && c in l.chains[l.owner[c]])
    && (forall h, c :: h in l.chains && c in l.chains[h] ==> c in l.owner && l.owner[c] == h)
  }

  ghost predicate UsedExactly(fat: seq<nat>, l: Ledger) {
    && l.owner.Keys !! l.reserved
    && forall c: nat :: 2 <= c < |fat| ==> (fat[c] != FREE <==> c in l.owner || c in l.reserved)
  }

  // ---- The three things the driver does to chains

  function NewChain(l: Ledger, c: nat): Ledger {
    l.(chains := l.chains[c := [c]], owner := l.owner[c := c])
  }

  function ExtendChain(l: Ledger, h: nat, c: nat): Ledger
    requires h in l.chains
  {
    l.(chains := l.chains[h := l.chains[h] + [c]], owner := l.owner[c := h])
  }

  function DropChain(l: Ledger, h: nat): Ledger
    requires h in l.chains
  {
    l.(chains := l.chains - {h}, owner := map c | c in l.owner && c !in l.chains[h] :: l.owner[c])
  }

  /** Chain `f` may be new or longer; no other chain, and no reserved cluster, differs. */
  ghost predicate LedgerStep(l: Ledger, l': Ledger, f: nat) {
    && l'.reserved == l.reserved && l'.chains.Keys <= l.chains.Keys + {f}
    && forall k :: k in l.chains ==> k in l'.chains && l.chains[k] <= l'.chains[k] && (k != f ==> l'.chains[k] == l.chains[k])
  }

  lemma HeadIsOwned(fat: seq<nat>, l: Ledger, h: nat)
    requires Owned(fat, l)
    ensures h in l.chains ==> h in l.owner && l.owner[h] == h
  {
    assert h in l.chains ==> l.chains[h][0] in l.chains[h];
  }

  lemma FreeIsUnowned(fat: seq<nat>, l: Ledger, c: nat)
    requires Owned(fat, l) && 2 <= c < |fat| && fat[c] == FREE
    ensures c !in l.owner && c !in l.reserved && c !in l.chains
    ensures forall h :: h in l.chains ==> c !in l.chains[h]
  {
    HeadIsOwned(fat, l, c);
  }

  lemma NewChainOwned(fat: seq<nat>, l: Ledger, c: nat)
    requires Owned(fat, l) && 2 <= c < |fat| && fat[c] == FREE
    ensures Owned(fat[c := EOC_MARK], NewChain(l, c))
  {
    FreeIsUnowned(fat, l, c);
    OwnerMatchesNew(l, c);
    WellChainedNew(fat, l.chains, c);
  }

  lemma WellChainedNew(fat: seq<nat>, chains: map<nat, seq<nat>>, c: nat)
    requires WellChained(fat, chains) && 2 <= c < |fat|
    requires forall h :: h in chains ==> c !in chains[h]
    ensures WellChained(fat[c := EOC_MARK], chains[c := [c]])
  {
    var fat' := fat[c := EOC_MARK];
    WellChainedFrame(fat, fat', chains);
    assert IsChain(fat', [c]);
  }

  lemma OwnerMatchesNew(l: Ledger, c: nat)
    requires OwnerMatches(l) && c !in l.owner && c !in l.chains
    ensures OwnerMatches(NewChain(l, c))
  {}

  lemma OwnerMatchesExtend(l: Ledger, h: nat, c: nat)
    requires OwnerMatches(l) && c !in l.owner && h in l.chains
    ensures OwnerMatches(ExtendChain(l, h, c))
  {
    var l' := ExtendChain(l, h, c);
    forall x | x in l'.owner
      ensures l'.owner[x] in l'.chains && x in l'.chains[l'.owner[x]]
    {
      if x == c { assert l'.chains[h][|l.chains[h]|] == c; }
    }
  }

  lemma OwnerMatchesDrop(l: Ledger, h: nat)
    requires OwnerMatches(l) && h in l.chains
    ensures OwnerMatches(DropChain(l, h))
  {
    var l' := DropChain(l, h);
    forall k, c | k in l'.chains && c in l'.chains[k]
      ensures c in l'.owner && l'.owner[c] == k
    {
      assert l.owner[c] == k;
    }
  }

  lemma {:induction false} ChainFrame(fat: seq<nat>, fat': seq<nat>, ch: seq<nat>)
    requires IsChain(fat, ch) && |fat'| == |fat|
    requires forall c :: c in ch ==> c < |fat| ==> fat'[c] == fat[c]
    ensures IsChain(fat', ch)
  {
    assert ch[0] in ch;
    if |ch| > 1 { ChainFrame(fat, fat', ch[1..]); }
  }

  lemma WellChainedFrame(fat: seq<nat>, fat': seq<nat>, chains: map<nat, seq<nat>>)
    requires WellChained(fat, chains) && |fat'| == |fat|
    requires forall h, c :: h in chains && c in chains[h] ==> c < |fat| ==> fat'[c] == fat[c]
    ensures WellChained(fat', chains)
  {
    forall h | h in chains
      ensures IsChain(fat', chains[h])
    {
      ChainFrame(fat, fat', chains[h]);
    }
  }

  lemma ExtendChainOwned(fat: seq<nat>, l: Ledger, h: nat, last: nat, c: nat, fat': seq<nat>)
    requires Owned(fat, l) && h in l.chains && 2 <= c < |fat| && fat[c] == FREE
    requires last == l.chains[h][|l.chains[h]| - 1] && last < |fat|
    requires fat' == fat[c := EOC_MARK][last := c][c := EOC_MARK]
    ensures Owned(fat', ExtendChain(l, h, c))
  {
    FreeIsUnowned(fat, l, c);
    OwnerMatchesExtend(l, h, c);
    WellChainedExtend(fat, l, h, last, c, fat');
    UsedExtend(fat, l, h, last, c, fat');
    LinksInsideExtend(fat, last, c);
  }

  lemma LinksInsideExtend(fat: seq<nat>, last: nat, c: nat)
    requires LinksInside(fat) && c < |fat| && last < |fat|
    ensures LinksInside(fat[c := EOC_MARK][last := c][c := EOC_MARK])
  {}

  lemma UsedExtend(fat: seq<nat>, l: Ledger, h: nat, last: nat, c: nat, fat': seq<nat>)
    requires UsedExactly(fat, l) && OwnerMatches(l) && h in l.chains && 2 <= c < |fat|
    requires c !in l.reserved && last in l.chains[h] && last < |fat|
    requires fat' == fat[c := EOC_MARK][last := c][c := EOC_MARK]
    ensures UsedExactly(fat', ExtendChain(l, h, c))
  {
    assert last in l.owner;
  }

  lemma WellChainedExtend(fat: seq<nat>, l: Ledger, h: nat, last: nat, c: nat, fat': seq<nat>)
    requires WellChained(fat, l.chains) && OwnerMatches(l) && h in l.chains && 2 <= c < |fat|
    requires forall k :: k in l.chains ==> c !in l.chains[k]
    requires last == l.chains[h][|l.chains[h]| - 1] && last < |fat|
    requires fat' == fat[c := EOC_MARK][last := c][c := EOC_MARK]
    ensures WellChained(fat', ExtendChain(l, h, c).chains)
    ensures last in l.chains[h]
  {
    var ch := l.chains[h];
    assert last in ch;
    ExtendedIsChain(fat, fat', ch, c);
    forall k, x | k in l.chains && k != h && x in l.chains[k]
      ensures x < |fat| ==> fat'[x] == fat[x]
    {
      assert l.owner[x] == k;
    }
    var rest := l.chains - {h};
    WellChainedFrame(fat, fat', rest);
    assert forall k :: k in l.chains && k != h ==> k in rest && rest[k] == l.chains[k];
    assert (ch + [c])[0] == h;
  }

  lemma {:induction false} ExtendedIsChain(fat: seq<nat>, fat': seq<nat>, ch: seq<nat>, c: nat)
    requires IsChain(fat, ch) && 2 <= c < |fat| && c !in ch
    requires ch[|ch| - 1] < |fat| && fat' == fat[c := EOC_MARK][ch[|ch| - 1] := c][c := EOC_MARK]
    ensures IsChain(fat', ch + [c])
  {
    if |ch| == 1 {
      assert (ch + [c])[1..] == [c];
    } else {
      ExtendedIsChain(fat, fat', ch[1..], c);
      assert (ch + [c])[1..] == ch[1..] + [c];
    }
  }

  lemma {:induction false} ChainHops(fat: seq<nat>, ch: seq<nat>, k: nat)
    requires IsChain(fat, ch) && |fat| <= BAD
    ensures k < |ch| ==> Hop(fat, ch[0], k) == ch[k]
    ensures k >= |ch| ==> !IsLink(Hop(fat, ch[0], k))
  {
    if 0 < k <= |ch| { ChainLink(fat, ch, k - 1); }
    if k > 0 { ChainHops(fat, ch, k - 1); }
  }

  /** What can be reached from the head of a chain is the chain. */
  lemma ChainReachable(fat: seq<nat>, ch: seq<nat>, x: nat)
    requires IsChain(fat, ch) && |fat| <= BAD
    ensures Reachable(fat, ch[0], x) <==> x in ch
  {
    if Reachable(fat, ch[0], x) {
      var j: nat :| Hop(fat, ch[0], j) == x;
      ChainHops(fat, ch, j);
    }
    if x in ch {
      var i :| 0 <= i < |ch| && ch[i] == x;
      ChainHops(fat, ch, i);
    }
  }

  lemma DropChainOwned(fat: seq<nat>, l: Ledger, h: nat)
    requires Owned(fat, l) && h in l.chains
    ensures Owned(Freed(fat, h), DropChain(l, h))
  {
    var fat', l' := Freed(fat, h), DropChain(l, h);
    forall x: nat | x < |fat|
      ensures fat'[x] == if x in l.chains[h] then FREE else fat[x]
    {
      ChainReachable(fat, l.chains[h], x);
    }
    WellChainedDrop(fat, fat', l, h);
    OwnerMatchesDrop(l, h);
  }

  lemma WellChainedDrop(fat: seq<nat>, fat': seq<nat>, l: Ledger, h: nat)
    requires WellChained(fat, l.chains) && OwnerMatches(l) && h in l.chains && |fat'| == |fat|
    requires forall x: nat :: x < |fat| && x !in l.chains[h] ==> fat'[x] == fat[x]
    ensures WellChained(fat', DropChain(l, h).chains)
  {
    forall k, x | k in l.chains && k != h && x in l.chains[k]
      ensures x < |fat| ==> fat'[x] == fat[x]
    {
      assert l.owner[x] == k;
    }
    WellChainedFrame(fat, fat', l.chains - {h});
  }

  // ---- The bytes of a chain

  function At(data: seq<seq<byte>>, c: nat): seq<byte> {
    if c < |data| then data[c] else []
  }

  ghost function ChainBytes(data: seq<seq<byte>>, ch: seq<nat>): seq<byte> {
    if ch == [] then [] else At(data, ch[0]) + ChainBytes(data, ch[1..])
  }

  lemma Associates(a: seq<byte>, b: seq<byte>, c: seq<byte>)
    ensures a + b + c == a + (b + c)
  {}

  lemma {:induction false} ChainBytesConcat(data: seq<seq<byte>>, a: seq<nat>, b: seq<nat>)
    ensures ChainBytes(data, a + b) == ChainBytes(data, a) + ChainBytes(data, b)
  {
    if a == [] {
      assert a + b == b;
    } else {
      assert (a + b)[0] == a[0] && (a + b)[1..] == a[1..] + b;
      ChainBytesConcat(data, a[1..], b);
      Associates(At(data, a[0]), ChainBytes(data, a[1..]), ChainBytes(data, b));
    }
  }

  lemma {:induction false} ChainBytesFrame(data: seq<seq<byte>>, data': seq<seq<byte>>, ch: seq<nat>)
    requires forall c :: c in ch ==> At(data', c) == At(data, c)
    ensures ChainBytes(data', ch) == ChainBytes(data, ch)
  {
    if ch != [] { ChainBytesFrame(data, data', ch[1..]); }
  }

  lemma ChainBytesSnoc(data: seq<seq<byte>>, ch: seq<nat>, c: nat)
    ensures ChainBytes(data, ch + [c]) == ChainBytes(data, ch) + At(data, c)
  {
    ChainBytesConcat(data, ch, [c]);
    assert ChainBytes(data, [c][1..]) == [];
  }

  /** The bytes before, in and after the `k`-th cluster of a chain. */
  lemma ChainBytesAt(data: seq<seq<byte>>, ch: seq<nat>, k: nat)
    requires k < |ch|
    ensures ChainBytes(data, ch[..k + 1]) == ChainBytes(data, ch[..k]) + At(data, ch[k])
    ensures ChainBytes(data, ch) == ChainBytes(data, ch[..k]) + At(data, ch[k]) + ChainBytes(data, ch[k + 1..])
  {
    hide ChainBytes;
    assert ch[..k] + [ch[k]] == ch[..k + 1];
    assert ch[..k + 1] + ch[k + 1..] == ch;
    ChainBytesSnoc(data, ch[..k], ch[k]);
    ChainBytesConcat(data, ch[..k + 1], ch[k + 1..]);
  }

  lemma SpliceMiddle(a: seq<byte>, m: seq<byte>, b: seq<byte>, off: nat, bs: seq<byte>)
    requires off + |bs| <= |m|
    ensures a + Splice(m, off, bs) + b == Splice(a + m + b, |a| + off, bs)
  {}

  lemma ChainBytesElsewhere(data: seq<seq<byte>>, ch: seq<nat>, k: nat, data': seq<seq<byte>>)
    requires k < |ch| && Distinct(ch) && |data'| == |data|
    requires forall c: nat :: c < |data| && c != ch[k] ==> data'[c] == data[c]
    ensures ChainBytes(data', ch[..k]) == ChainBytes(data, ch[..k])
    ensures ChainBytes(data', ch[k + 1..]) == ChainBytes(data, ch[k + 1..])
  {
    ChainBytesFrame(data, data', ch[..k]);
    ChainBytesFrame(data, data', ch[k + 1..]);
  }

  /** Writing inside the `k`-th cluster is writing at the matching place of the whole chain. */
  lemma ChainBytesSplice(data: seq<seq<byte>>, ch: seq<nat>, k: nat, off: nat, bs: seq<byte>)
    requires k < |ch| && Distinct(ch) && ch[k] < |data| && off + |bs| <= |data[ch[k]]|
    ensures var base := |ChainBytes(data, ch[..k])|;
      && base + off + |bs| <= |ChainBytes(data, ch)|
      && ChainBytes(data[ch[k] := Splice(data[ch[k]], off, bs)], ch) == Splice(ChainBytes(data, ch), base + off, bs)
      && ChainBytes(data[ch[k] := Splice(data[ch[k]], off, bs)], ch[..k]) == ChainBytes(data, ch[..k])
  {
    hide ChainBytes, Splice, Distinct;
    var data' := data[ch[k] := Splice(data[ch[k]], off, bs)];
    ChainBytesAt(data, ch, k);
    ChainBytesAt(data', ch, k);
    ChainBytesElsewhere(data, ch, k, data');
    SpliceMiddle(ChainBytes(data, ch[..k]), data[ch[k]], ChainBytes(data, ch[k + 1..]), off, bs);
    LengthOfThree(ChainBytes(data, ch[..k]), data[ch[k]], ChainBytes(data, ch[k + 1..]));
  }

  lemma LengthOfThree(a: seq<byte>, b: seq<byte>, c: seq<byte>)
    ensures |a + b + c| == |a| + |b| + |c|
  {}
}
