/** Long-name entries: taking their characters apart, and rebuilding a whole name from them. */
module FatLongNames {
  import opened Bytes
  import opened FatNames
  import opened FatEntries

  const PER_ENTRY: nat := 13
  const NAME_BUF: nat := 256

  /** Where the `i`-th of an entry's thirteen 16-bit characters is. */
  function CharOffset(i: nat): (o: nat)
    requires i < PER_ENTRY
    ensures o + 2 <= ENTRY
  {
    if i < 5 then 1 + 2 * i else if i < 11 then 14 + 2 * (i - 5) else 28 + 2 * (i - 11)
  }

  function LfnChar(e: Entry, i: nat): nat
    requires i < PER_ENTRY
  {
    FromLE(e[CharOffset(i)..CharOffset(i) + 2])
  }

  predicate Stops(c: nat) { c == 0 || c == 0xFFFF }

  /** How many characters come before the one that stops the name, from the `i`-th on. */
  function Taken(e: Entry, i: nat): (n: nat)
    requires i <= PER_ENTRY
    ensures i <= n <= PER_ENTRY
    ensures forall j :: i <= j < n ==> !Stops(LfnChar(e, j))
    ensures n < PER_ENTRY ==> Stops(LfnChar(e, n))
    decreases PER_ENTRY - i
  {
    if i == PER_ENTRY || Stops(LfnChar(e, i)) then i else Taken(e, i + 1)
  }

  /** The entry's number, counted from 1, in the low six bits of its first byte. */
  function Order(e: Entry): nat { e[0] as int % 64 }
  predicate IsLast(e: Entry) { e[0] as int / 64 % 2 == 1 }

  lemma OrderBits(e: Entry, hi: nat, last: nat, n: nat)
    requires e[0] as nat == hi * 128 + last * 64 + n && last < 2 && n < 64
    ensures Order(e) == n && (IsLast(e) <==> last == 1)
  {
    assert (hi * 128 + last * 64 + n) / 64 == 2 * hi + last;
    assert hi * 128 + last * 64 + n == 64 * (2 * hi + last) + n;
  }

  /** Every byte the entry makes `lfn_to_ascii` write lies in the name buffer. */
  predicate LfnFits(e: Entry) {
    1 <= Order(e) && (Order(e) - 1) * PER_ENTRY + Taken(e, 0) <= NAME_BUF
    && (Taken(e, 0) < PER_ENTRY ==> (Order(e) - 1) * PER_ENTRY + Taken(e, 0) < NAME_BUF)
  }

  /** The name buffer after one entry: its characters in their place, and a zero byte if one stops the name. */
  function LfnPut(buf: seq<byte>, e: Entry): (r: seq<byte>)
    requires |buf| == NAME_BUF && LfnFits(e)
    ensures |r| == NAME_BUF
    ensures var idx, n := (Order(e) - 1) * PER_ENTRY, Taken(e, 0);
      forall k :: 0 <= k < NAME_BUF ==>
        r[k] == if idx <= k < idx + n then LfnChar(e, k - idx) % 256
                else if k == idx + n && n < PER_ENTRY then 0 else buf[k]
  {
    var idx, n := (Order(e) - 1) * PER_ENTRY, Taken(e, 0);
    seq(NAME_BUF, k requires 0 <= k < NAME_BUF =>
      if idx <= k < idx + n then LfnChar(e, k - idx) % 256 else if k == idx + n && n < PER_ENTRY then 0 else buf[k])
  }

  method LfnToAscii(e: Entry, out: array<byte>)
    requires out.Length == NAME_BUF && LfnFits(e)
    modifies out
    ensures out[..] == LfnPut(old(out[..]), e)
  {
    hide Taken, LfnChar;
    var idx := (e[0] as int % 64 - 1) * PER_ENTRY;
    var stopped := CopyChars(e, out, idx, 0, 5);
    if stopped { return; }
    stopped := CopyChars(e, out, idx, 5, 11);
    if stopped { return; }
    stopped := CopyChars(e, out, idx, 11, 13);
  }

  /** One of the three loops: characters `from` to `to`, ending at the first that stops the name. */
  method CopyChars(e: Entry, out: array<byte>, idx: nat, from: nat, to: nat) returns (stopped: bool)
    requires out.Length == NAME_BUF && LfnFits(e) && idx == (Order(e) - 1) * PER_ENTRY && from <= to <= PER_ENTRY
    requires from <= Taken(e, 0)
    modifies out
    ensures stopped <==> Taken(e, 0) < to
    ensures forall k :: 0 <= k < NAME_BUF ==>
      out[k] == if idx + from <= k < idx + to && k < idx + Taken(e, 0) then LfnChar(e, k - idx) % 256
                else if k == idx + Taken(e, 0) && Taken(e, 0) < to then 0 else old(out[k])
  {
    hide Taken, LfnChar;
    for i := from to to
      invariant i <= Taken(e, 0)
      invariant forall k :: 0 <= k < NAME_BUF ==>
        out[k] == if idx + from <= k < idx + i then LfnChar(e, k - idx) % 256 else old(out[k])
    {
      var c := LfnChar(e, i);
      if Stops(c) {
        out[idx + i] := 0;
        return true;
      }
      out[idx + i] := c % 256;
    }
    stopped := false;
  }

  predicate IsLongNamePart(e: Entry) { e[0] != 0 && e[0] != DELETED && AttrOf(e) == ATTR_LFN }

  // ---- The name buffer of a scan

  /** The name buffer, if long-name entries are pending. */
  datatype Pending = Idle | Collecting(buf: seq<byte>)

  predicate PendingOk(p: Pending) { p.Collecting? ==> |p.buf| == NAME_BUF }

  /** The pending name after a long-name entry. */
  function Collect(p: Pending, e: Entry): (p': Pending)
    requires PendingOk(p) && LfnFits(e)
    ensures PendingOk(p')
  {
    if IsLast(e) then Collecting(LfnPut(Zeros(NAME_BUF), e))
    else if p.Collecting? then Collecting(LfnPut(p.buf, e))
    else Idle
  }

  predicate AllFit(es: seq<Entry>) { forall i :: 0 <= i < |es| ==> LfnFits(es[i]) }

  /** The pending name after a run of long-name entries. */
  function CollectAll(es: seq<Entry>, p: Pending): (p': Pending)
    requires PendingOk(p) && AllFit(es)
    ensures PendingOk(p')
  {
    if es == [] then p else CollectAll(es[1..], Collect(p, es[0]))
  }

  // ---- How a name is stored

  /** How many entries a name takes. */
  function EntriesFor(name: seq<byte>): nat { (|name| + 12) / 13 }

  /** The character the encoding has at `p`: the name's, then a zero, then filler. */
  function EncodedChar(name: seq<byte>, p: nat): (c: nat)
    ensures c < 0x1_0000
  {
    if p < |name| then name[p] else if p == |name| then 0 else 0xFFFF
  }

  predicate LongName(name: seq<byte>) { 1 <= |name| <= 255 && 0 !in name }

  /** Entry `e` is the `j`-th of the entries that encode `name`. */
  predicate Encodes(e: Entry, name: seq<byte>, j: nat)
    requires j > 0
  {
    && IsLongNamePart(e) && Order(e) == j && (IsLast(e) <==> j == EntriesFor(name))
    && forall i :: 0 <= i < PER_ENTRY ==> LfnChar(e, i) == EncodedChar(name, (j - 1) * PER_ENTRY + i)
  }

  /** Entries `j`, `j - 1`, ..., 1 of a name, in the order they are stored. */
  predicate EncodesDown(es: seq<Entry>, name: seq<byte>, j: nat)
    decreases j
  {
    |es| == j && (j > 0 ==> Encodes(es[0], name, j) && EncodesDown(es[1..], name, j - 1))
  }

  function Half(c: nat, upper: bool): byte { if upper then c / 256 % 256 else c % 256 }

  /** Byte `k` of the `j`-th long-name entry of `name`. */
  function LongByte(name: seq<byte>, j: nat, checksum: byte, k: nat): byte
    requires 0 < j <= EntriesFor(name) <= 20 && k < ENTRY
  {
    var first := (j - 1) * PER_ENTRY;
    if k == 0 then (if j == EntriesFor(name) then j + 0x40 else j)
    else if k < 11 then Half(EncodedChar(name, first + (k - 1) / 2), (k - 1) % 2 == 1)
    else if k == 11 then ATTR_LFN
    else if k == 13 then checksum
    else if 14 <= k < 26 then Half(EncodedChar(name, first + 5 + (k - 14) / 2), k % 2 == 1)
    else if 28 <= k then Half(EncodedChar(name, first + 11 + (k - 28) / 2), k % 2 == 1)
    else 0
  }

  function LongEntry(name: seq<byte>, j: nat, checksum: byte): (e: Entry)
    requires 0 < j <= EntriesFor(name) <= 20
    ensures forall k :: 0 <= k < ENTRY ==> e[k] == LongByte(name, j, checksum, k)
  {
    seq(32, k requires 0 <= k < 32 => LongByte(name, j, checksum, k))
  }

  /** The long-name entries of a name, from the `j`-th down to the first. */
  function EncodeDown(name: seq<byte>, j: nat, checksum: byte): (es: seq<Entry>)
    requires j <= EntriesFor(name) <= 20
    ensures |es| == j
    decreases j
  {
    if j == 0 then [] else [LongEntry(name, j, checksum)] + EncodeDown(name, j - 1, checksum)
  }

  lemma TwoBytes(a: byte, b: byte, c: nat)
    requires c < 0x1_0000 && a == c % 256 && b == c / 256 % 256
    ensures FromLE([a, b]) == c
  {
    assert [a, b][1..] == [b] && [b][1..] == [];
    assert FromLE([b]) == b + 256 * FromLE([]) == b;
    assert FromLE([a, b]) == a + 256 * FromLE([b]) == a + 256 * b;
  }

  lemma OrderByte(j: nat, count: nat)
    requires 0 < j <= count <= 20
    ensures var x := if j == count then j + 0x40 else j; x % 64 == j && (x / 64 % 2 == 1 <==> j == count)
  {}

  lemma LongEntryHead(name: seq<byte>, j: nat, checksum: byte)
    requires 0 < j <= EntriesFor(name) <= 20
    ensures var e := LongEntry(name, j, checksum);
      IsLongNamePart(e) && Order(e) == j && (IsLast(e) <==> j == EntriesFor(name))
  {
    var e := LongEntry(name, j, checksum);
    assert e[11] == LongByte(name, j, checksum, 11) == ATTR_LFN;
    assert e[0] == LongByte(name, j, checksum, 0);
    OrderByte(j, EntriesFor(name));
  }

  lemma LongEntryEncodes(name: seq<byte>, j: nat, checksum: byte)
    requires 0 < j <= EntriesFor(name) <= 20
    ensures Encodes(LongEntry(name, j, checksum), name, j)
  {
    LongEntryHead(name, j, checksum);
    hide LongEntry, IsLongNamePart, Order, IsLast, EntriesFor, LfnChar;
    forall i | 0 <= i < PER_ENTRY
      ensures LfnChar(LongEntry(name, j, checksum), i) == EncodedChar(name, (j - 1) * PER_ENTRY + i)
    {
      LongCharStored(name, j, checksum, i);
    }
  }

  lemma LongCharStored(name: seq<byte>, j: nat, checksum: byte, i: nat)
    requires 0 < j <= EntriesFor(name) <= 20 && i < PER_ENTRY
    ensures LfnChar(LongEntry(name, j, checksum), i) == EncodedChar(name, (j - 1) * PER_ENTRY + i)
  {
    hide FromLE, EncodedChar, LongEntry;
    var e, o, c := LongEntry(name, j, checksum), CharOffset(i), EncodedChar(name, (j - 1) * PER_ENTRY + i);
    assert e[o] == Half(c, false) && e[o + 1] == Half(c, true);
    assert e[o..o + 2] == [e[o], e[o + 1]];
    TwoBytes(e[o], e[o + 1], c);
  }

  /** Every name of up to 255 characters has its entries. */
  lemma {:induction false} EncoderEncodes(name: seq<byte>, j: nat, checksum: byte)
    requires LongName(name) && j <= EntriesFor(name)
    ensures EncodesDown(EncodeDown(name, j, checksum), name, j)
    decreases j
  {
    if j > 0 {
      LongEntryEncodes(name, j, checksum);
      EncoderEncodes(name, j - 1, checksum);
      assert EncodeDown(name, j, checksum)[1..] == EncodeDown(name, j - 1, checksum);
    }
  }

  // ---- Rebuilding a name

  lemma EncodedTaken(e: Entry, name: seq<byte>, j: nat)
    requires LongName(name) && 1 <= j <= EntriesFor(name) && Encodes(e, name, j)
    ensures Taken(e, 0) == if j * PER_ENTRY <= |name| then PER_ENTRY else |name| - (j - 1) * PER_ENTRY
    ensures LfnFits(e)
  {
    var idx, n := (j - 1) * PER_ENTRY, Taken(e, 0);
    assert forall i :: 0 <= i < PER_ENTRY ==> (Stops(LfnChar(e, i)) <==> idx + i >= |name|);
    if n < PER_ENTRY { assert idx + n >= |name|; }
    if n > 0 { assert idx + n - 1 < |name|; }
  }

  /** The buffer once the entries above `j` are in: their part of the name, and the zero byte after it. */
  predicate Filled(buf: seq<byte>, name: seq<byte>, j: nat) {
    && |buf| == NAME_BUF && |name| < NAME_BUF
    && forall k :: j * PER_ENTRY <= k <= |name| ==> buf[k] == if k < |name| then name[k] else 0
  }

  lemma PutByte(buf: seq<byte>, e: Entry, name: seq<byte>, j: nat, k: nat)
    requires LongName(name) && 1 <= j <= EntriesFor(name) && Encodes(e, name, j) && Filled(buf, name, j) && LfnFits(e)
    requires (j - 1) * PER_ENTRY <= k <= |name|
    requires Taken(e, 0) == if j * PER_ENTRY <= |name| then PER_ENTRY else |name| - (j - 1) * PER_ENTRY
    ensures LfnPut(buf, e)[k] == if k < |name| then name[k] else 0
  {
    hide Taken, LfnChar, IsLongNamePart, IsLast;
    var i := k - (j - 1) * PER_ENTRY;
    if i < Taken(e, 0) { assert LfnChar(e, i) == EncodedChar(name, (j - 1) * PER_ENTRY + i); }
  }

  lemma PutFills(buf: seq<byte>, e: Entry, name: seq<byte>, j: nat)
    requires LongName(name) && 1 <= j <= EntriesFor(name) && Encodes(e, name, j) && Filled(buf, name, j) && LfnFits(e)
    ensures Filled(LfnPut(buf, e), name, j - 1)
  {
    EncodedTaken(e, name, j);
    hide LfnFits, LfnPut, Encodes;
    forall k | (j - 1) * PER_ENTRY <= k <= |name|
      ensures LfnPut(buf, e)[k] == if k < |name| then name[k] else 0
    {
      PutByte(buf, e, name, j, k);
    }
  }

  lemma {:induction false} EncodedFit(es: seq<Entry>, name: seq<byte>, j: nat)
    requires LongName(name) && j <= EntriesFor(name) && EncodesDown(es, name, j)
    ensures AllFit(es)
    decreases j
  {
    hide Encodes, LfnFits;
    if j > 0 {
      EncodedTaken(es[0], name, j);
      EncodedFit(es[1..], name, j - 1);
    }
  }

  /** One more entry of the name in the buffer. */
  lemma CollectFills(p: Pending, e: Entry, name: seq<byte>, j: nat)
    requires LongName(name) && 1 <= j <= EntriesFor(name) && Encodes(e, name, j) && PendingOk(p) && LfnFits(e)
    requires j < EntriesFor(name) ==> p.Collecting? && Filled(p.buf, name, j)
    ensures Collect(p, e).Collecting? && Filled(Collect(p, e).buf, name, j - 1)
  {
    PutFills(if IsLast(e) then Zeros(NAME_BUF) else p.buf, e, name, j);
  }

  lemma {:induction false} CollectDown(es: seq<Entry>, p: Pending, name: seq<byte>, j: nat)
    requires LongName(name) && j <= EntriesFor(name) && EncodesDown(es, name, j) && PendingOk(p) && AllFit(es)
    requires j < EntriesFor(name) ==> p.Collecting? && Filled(p.buf, name, j)
    ensures CollectAll(es, p).Collecting? && Filled(CollectAll(es, p).buf, name, 0)
    decreases j
  {
    hide Encodes, Filled, Collect, LfnFits;
    if j > 0 {
      CollectFills(p, es[0], name, j);
      assert AllFit(es[1..]) by { assert forall i :: 0 <= i < |es[1..]| ==> es[1..][i] == es[i + 1]; }
      CollectDown(es[1..], Collect(p, es[0]), name, j - 1);
    }
  }

  lemma FilledIsName(buf: seq<byte>, name: seq<byte>)
    requires Filled(buf, name, 0)
    ensures |name| < |buf| && buf[..|name|] == name && buf[|name|] == 0
  {}

  /** A C string cut off behind its end is the same. */
  lemma {:induction false} CStrCut(s: seq<byte>, n: nat)
    requires n <= |s| && 0 !in s[..n] && (n == |s| || s[n] == 0)
    ensures CStr(s) == s[..n]
  {
    if n == |s| {
      assert s[..n] == s;
      NoZeroIsCStr(s);
    } else {
      CStrIs(s, n);
    }
  }

  /**
   * The entries of a name of 1 to 255 characters, met in the order they are stored, rebuild exactly that
   * name, whatever was pending before; every write stays inside the buffer.
   */
  lemma LongNameRebuilt(es: seq<Entry>, p: Pending, name: seq<byte>)
    requires LongName(name) && EncodesDown(es, name, EntriesFor(name)) && PendingOk(p)
    ensures AllFit(es)
    ensures var q := CollectAll(es, p);
      q.Collecting? && q.buf[0] != 0 && q.buf[|name|] == 0 && CStr(q.buf) == name && CStr(q.buf[..NAME_BUF - 1]) == name
  {
    hide CollectAll, EncodesDown, AllFit, Filled, CStr, EntriesFor;
    EncodedFit(es, name, EntriesFor(name));
    CollectDown(es, p, name, EntriesFor(name));
    var buf := CollectAll(es, p).buf;
    FilledIsName(buf, name);
    assert name[0] in name && buf[0] == buf[..|name|][0];
    CStrCut(buf, |name|);
    assert buf[..NAME_BUF - 1][..|name|] == name;
    CStrCut(buf[..NAME_BUF - 1], |name|);
  }
}
