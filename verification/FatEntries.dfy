/** Directory entries: 32 bytes with a short name, attributes, a first cluster and a size. */
module FatEntries {
  import opened Bytes
  import opened FatNames

  const ENTRY: nat := 32
  const DELETED: byte := 0xE5
  const ATTR_DIR: byte := 0x10
  const ATTR_ARCHIVE: byte := 0x20
  const ATTR_LFN: byte := 0x0F

  type Entry = e: seq<byte> | |e| == 32 witness Zeros(32)

  function ShortOf(e: Entry): (n: ShortName)
    ensures n.Wide()
  {
    ShortName(e[..8], e[8..11])
  }

  function AttrOf(e: Entry): byte { e[11] }
  predicate IsDir(e: Entry) { AttrOf(e) as int / 16 % 2 == 1 }
  predicate IsVolumeId(e: Entry) { AttrOf(e) as int / 8 % 2 == 1 }

  /** Bit 4 of the attributes says that the entry is a directory's, and bit 3 that it is the volume's label. */
  lemma AttrBits(e: Entry, hi: nat, dir: nat, vol: nat, lo: nat)
    requires AttrOf(e) as nat == hi * 32 + dir * 16 + vol * 8 + lo && dir < 2 && vol < 2 && lo < 8
    ensures (IsDir(e) <==> dir == 1) && (IsVolumeId(e) <==> vol == 1)
  {
    assert (hi * 32 + dir * 16 + vol * 8 + lo) / 16 == 2 * hi + dir;
    assert (hi * 32 + dir * 16 + vol * 8 + lo) / 8 == 2 * (2 * hi + dir) + vol;
  }

  /** The first cluster, kept in two halves. */
  function FirstOf(e: Entry): nat { FromLE(e[20..22]) * 0x1_0000 + FromLE(e[26..28]) }
  function SizeOf(e: Entry): nat { FromLE(e[28..32]) }

  /** The entries that a directory scan turns into files and directories. */
  predicate Shows(e: Entry) {
    e[0] != 0 && e[0] != DELETED && AttrOf(e) != ATTR_LFN && !IsVolumeId(e) && e[0] != DOT
  }

  /** The entry `fat32_create` writes. */
  function NewEntry(n: ShortName, attr: byte, first: nat): (e: Entry)
    requires n.Wide() && first < TWO32
  {
    n.base + n.ext + [attr] + Zeros(8) + ToLE(first / 0x1_0000, 2) + Zeros(4) + ToLE(first % 0x1_0000, 2) + Zeros(4)
  }

  lemma NewEntryReads(n: ShortName, attr: byte, first: nat)
    requires n.Wide() && first < TWO32
    ensures var e := NewEntry(n, attr, first);
      && e[0] == n.base[0] && ShortOf(e) == n && AttrOf(e) == attr && FirstOf(e) == first && SizeOf(e) == 0
  {
    var e := NewEntry(n, attr, first);
    Pow256Values();
    FromToLE(first / 0x1_0000, 2);
    FromToLE(first % 0x1_0000, 2);
    assert e[..8] == n.base && e[8..11] == n.ext;
    assert e[20..22] == ToLE(first / 0x1_0000, 2) && e[26..28] == ToLE(first % 0x1_0000, 2);
    ZerosRead(4);
    assert e[28..32] == Zeros(4);
  }

  lemma {:induction false} ZerosRead(n: nat)
    ensures FromLE(Zeros(n)) == 0
  {
    if n > 0 {
      assert Zeros(n)[1..] == Zeros(n - 1);
      ZerosRead(n - 1);
    }
  }

  /** The entry with its first cluster, its size, or its deletion mark set. */
  function WithFirst(e: Entry, first: nat): (e': Entry)
    requires first < TWO32
  {
    Splice(Splice(e, 20, ToLE(first / 0x1_0000, 2)), 26, ToLE(first % 0x1_0000, 2))
  }

  function WithSize(e: Entry, size: nat): (e': Entry) { Splice(e, 28, ToLE(size, 4)) }

  function Deleted(e: Entry): (e': Entry) { Splice(e, 0, [DELETED]) }

  /** Everything but the first cluster and the size. */
  predicate SameKind(e: Entry, e': Entry) {
    e'[0] == e[0] && ShortOf(e') == ShortOf(e) && AttrOf(e') == AttrOf(e)
  }

  lemma WithFirstReads(e: Entry, first: nat)
    requires first < TWO32
    ensures var e' := WithFirst(e, first);
      SameKind(e, e') && Shows(e') == Shows(e) && FirstOf(e') == first && SizeOf(e') == SizeOf(e)
  {
    var e' := WithFirst(e, first);
    Pow256Values();
    FromToLE(first / 0x1_0000, 2);
    FromToLE(first % 0x1_0000, 2);
    assert e'[20..22] == ToLE(first / 0x1_0000, 2) && e'[26..28] == ToLE(first % 0x1_0000, 2);
    assert e'[28..32] == e[28..32] && e'[..8] == e[..8] && e'[8..11] == e[8..11];
  }

  lemma WithSizeReads(e: Entry, size: nat)
    requires size < TWO32
    ensures var e' := WithSize(e, size);
      SameKind(e, e') && Shows(e') == Shows(e) && FirstOf(e') == FirstOf(e) && SizeOf(e') == size
  {
    var e' := WithSize(e, size);
    Pow256Values();
    FromToLE(size, 4);
    assert e'[28..32] == ToLE(size, 4) && e'[20..22] == e[20..22] && e'[26..28] == e[26..28];
    assert e'[..8] == e[..8] && e'[8..11] == e[8..11];
  }

  /** Where the fields lie: the first cluster's upper half at byte 20 and its lower at 26, and the size at 28. */
  lemma FieldBytes(e: Entry)
    ensures FirstOf(e) == e[26] as nat + 0x100 * e[27] as nat + 0x1_0000 * e[20] as nat + 0x100_0000 * e[21] as nat
    ensures SizeOf(e) == e[28] as nat + 0x100 * e[29] as nat + 0x1_0000 * e[30] as nat + 0x100_0000 * e[31] as nat
  {
    FourBytes(e[28..32]);
    HalfBytes(e[20..22]);
    HalfBytes(e[26..28]);
  }

  lemma HalfBytes(s: seq<byte>)
    requires |s| == 2
    ensures FromLE(s) == s[0] as nat + 0x100 * s[1] as nat
  {
    assert s[1..][0] == s[1] && FromLE(s[1..][1..]) == 0;
  }

  /** Edits leave all other bytes of an entry alone, and a new entry is zero but for name, attributes and first cluster. */
  lemma EditsAreLocal(e: Entry, n: ShortName, attr: byte, first: nat, size: nat, i: nat)
    requires first < TWO32 && n.Wide() && i < ENTRY
    ensures !(20 <= i < 22 || 26 <= i < 28) ==> WithFirst(e, first)[i] == e[i]
    ensures i < 28 ==> WithSize(e, size)[i] == e[i]
    ensures Deleted(e)[i] == if i == 0 then DELETED else e[i]
    ensures 12 <= i < 20 || 22 <= i < 26 || 28 <= i ==> NewEntry(n, attr, first)[i] == 0
  {}

  lemma FirstBound(e: Entry)
    ensures FirstOf(e) < TWO32 && SizeOf(e) < TWO32
  {
    Pow256Values();
    FromLEBound(e[20..22]);
    FromLEBound(e[26..28]);
    FromLEBound(e[28..32]);
  }

  // ---- Entries inside the bytes of a directory

  predicate EntryPos(b: seq<byte>, pos: nat) { pos % ENTRY == 0 && pos + ENTRY <= |b| }

  function EntryAt(b: seq<byte>, pos: nat): Entry
    requires EntryPos(b, pos)
  {
    b[pos..pos + ENTRY]
  }

  function SetEntry(b: seq<byte>, pos: nat, e: Entry): (b': seq<byte>)
    requires EntryPos(b, pos)
    ensures |b'| == |b|
  {
    Splice(b, pos, e)
  }

  /** Setting one entry leaves the others. */
  lemma EntrySet(b: seq<byte>, pos: nat, e: Entry, q: nat)
    requires EntryPos(b, pos) && EntryPos(b, q)
    ensures EntryAt(SetEntry(b, pos, e), q) == if q == pos then e else EntryAt(b, q)
  {
    if q != pos { assert q + ENTRY <= pos || pos + ENTRY <= q; }
  }

  /** Appending leaves the entries there. */
  lemma EntryBelow(b: seq<byte>, more: seq<byte>, q: nat)
    requires EntryPos(b, q)
    ensures EntryPos(b + more, q) && EntryAt(b + more, q) == EntryAt(b, q)
  {}

  lemma EntryAbove(b: seq<byte>, n: nat, q: nat)
    requires EntryPos(b + Zeros(n), q) && |b| <= q
    ensures EntryAt(b + Zeros(n), q) == Zeros(ENTRY)
  {}
}
