/** The kernel heap in memory: packed 29-byte headers, linked both ways, and the data between them. */
module HeapMemory {
  import opened Bytes
  import opened HeapLayout

  const MAGIC: nat := 0xDEAD_C0DE

  /** `heap_block_t`; pointers are addresses, 0 is NULL. */
  datatype Header = Header(size: nat, free: nat, magic: nat, next: nat, prev: nat) {
    predicate Encodable() { size < TWO64 && free < 256 && magic < TWO32 && next < TWO64 && prev < TWO64 }
  }

  /** The widths of the packed fields. */
  const WIDTHS: seq<nat> := [8, 1, 4, 8, 8]

  function Sum(ws: seq<nat>): nat { if ws == [] then 0 else ws[0] + Sum(ws[1..]) }

  /** Little-endian fields packed one after another. */
  function Pack(fs: seq<nat>, ws: seq<nat>): (bs: seq<byte>)
    requires |fs| == |ws|
    ensures |bs| == Sum(ws)
  {
    if ws == [] then [] else ToLE(fs[0], ws[0]) + Pack(fs[1..], ws[1..])
  }

  function Unpack(bs: seq<byte>, ws: seq<nat>): (fs: seq<nat>)
    requires |bs| == Sum(ws)
    ensures |fs| == |ws|
  {
    if ws == [] then [] else [FromLE(bs[..ws[0]])] + Unpack(bs[ws[0]..], ws[1..])
  }

  lemma {:induction false} UnpackPack(fs: seq<nat>, ws: seq<nat>)
    requires |fs| == |ws| && forall i :: 0 <= i < |ws| ==> fs[i] < Pow256(ws[i])
    ensures Unpack(Pack(fs, ws), ws) == fs
  {
    if ws != [] {
      FromToLE(fs[0], ws[0]);
      UnpackPack(fs[1..], ws[1..]);
      assert Pack(fs, ws)[..ws[0]] == ToLE(fs[0], ws[0]) && Pack(fs, ws)[ws[0]..] == Pack(fs[1..], ws[1..]);
    }
  }

  lemma HeaderWidth()
    ensures Sum(WIDTHS) == HEADER
  {
    assert WIDTHS[1..] == [1, 4, 8, 8] && WIDTHS[1..][1..] == [4, 8, 8];
    assert [4, 8, 8][1..] == [8, 8] && [8, 8][1..] == [8] && [8][1..] == [];
    assert Sum([4, 8, 8]) == 20;
  }

  function Encode(h: Header): (bs: seq<byte>)
    ensures |bs| == HEADER
  {
    HeaderWidth();
    Pack([h.size, h.free, h.magic, h.next, h.prev], WIDTHS)
  }

  function Decode(bs: seq<byte>): Header
    requires |bs| == HEADER
  {
    HeaderWidth();
    var fs := Unpack(bs, WIDTHS);
    Header(fs[0], fs[1], fs[2], fs[3], fs[4])
  }

  /** Where the packed fields lie. */
  lemma HeaderFields(bs: seq<byte>)
    requires |bs| == HEADER
    ensures var h := Decode(bs);
      && h.size == FromLE(bs[..8]) && h.free == bs[8] && h.magic == FromLE(bs[9..13])
      && h.next == FromLE(bs[13..21]) && h.prev == FromLE(bs[21..29])
  {
    HeaderWidth();
    var ws := [1, 4, 8, 8];
    assert WIDTHS == [8] + ws && ws == [1] + [4, 8, 8] && [4, 8, 8] == [4] + [8, 8] && [8, 8] == [8] + [8] && [8] == [8] + [];
    UnpackFirst(bs, 8, ws);
    UnpackFirst(bs[8..], 1, [4, 8, 8]);
    UnpackFirst(bs[9..], 4, [8, 8]);
    UnpackFirst(bs[13..], 8, [8]);
    UnpackFirst(bs[21..], 8, []);
    assert bs[8..][1..] == bs[9..] && bs[9..][4..] == bs[13..] && bs[13..][8..] == bs[21..];
    assert bs[8..][..1] == [bs[8]] && bs[9..][..4] == bs[9..13] && bs[13..][..8] == bs[13..21] && bs[21..][..8] == bs[21..29];
    assert [bs[8]][1..] == [] && FromLE([bs[8]]) == bs[8];
  }

  lemma UnpackFirst(bs: seq<byte>, w: nat, ws: seq<nat>)
    requires |bs| == Sum([w] + ws)
    ensures |bs| >= w && |bs[w..]| == Sum(ws) && Unpack(bs, [w] + ws) == [FromLE(bs[..w])] + Unpack(bs[w..], ws)
  {
    assert ([w] + ws)[1..] == ws;
  }

  /** A wiped header has no magic number. */
  lemma WipedHasNoMagic(m: seq<byte>, o: nat)
    requires o + HEADER <= |m| && m[o..o + HEADER] == Zeros(HEADER)
    ensures HeaderAt(m, o).magic == 0
  {
    HeaderFields(Zeros(HEADER));
    FourBytes(Zeros(HEADER)[9..13]);
  }

  lemma DecodeEncode(h: Header)
    requires h.Encodable()
    ensures Decode(Encode(h)) == h
  {
    HeaderWidth();
    Pow256Values();
    assert Pow256(1) == 256 * Pow256(0);
    UnpackPack([h.size, h.free, h.magic, h.next, h.prev], WIDTHS);
  }

  function HeaderAt(m: seq<byte>, off: nat): Header
    requires off + HEADER <= |m|
  {
    Decode(m[off..off + HEADER])
  }

  /** `m` with a header written at `off`. */
  function WithHeader(m: seq<byte>, off: nat, h: Header): (m': seq<byte>)
    requires off + HEADER <= |m|
    ensures |m'| == |m|
  {
    Splice(m, off, Encode(h))
  }

  lemma HeaderWritten(m: seq<byte>, off: nat, h: Header)
    requires off + HEADER <= |m| && h.Encodable()
    ensures HeaderAt(WithHeader(m, off, h), off) == h
  {
    assert WithHeader(m, off, h)[off..off + HEADER] == Encode(h);
    DecodeEncode(h);
  }

  /** The two memories agree from `lo` up to `hi`. */
  ghost predicate SameBytes(m: seq<byte>, m': seq<byte>, lo: nat, hi: nat) {
    |m'| == |m| && hi <= |m| && forall i :: lo <= i < hi ==> m'[i] == m[i]
  }

  lemma HeaderSame(m: seq<byte>, m': seq<byte>, off: nat)
    requires off + HEADER <= |m| && SameBytes(m, m', off, off + HEADER)
    ensures HeaderAt(m', off) == HeaderAt(m, off)
  {
    assert m'[off..off + HEADER] == m[off..off + HEADER];
  }

  // ---- The headers a list of blocks must have

  /** The header of one block. */
  function Linked(b: Block, next: nat, prev: nat): Header {
    Header(b.size, if b.free then 1 else 0, MAGIC, next, prev)
  }

  /**
   * The headers of the blocks `bs` laid out from offset `off`, by their offsets: each has the magic value
   * and links to its neighbours. `prev` and `next` are the outer links; addresses start at `start`.
   */
  ghost function Headers(start: nat, bs: Layout, off: nat, prev: nat, next: nat): map<nat, Header> {
    if bs == [] then map[] else
    var here := Linked(bs[0], if |bs| == 1 then next else start + off + HEADER + bs[0].size, prev);
    Headers(start, bs[1..], off + HEADER + bs[0].size, start + off, next)[off := here]
  }

  /** The address of the last block, or `prev` when there is none. */
  function LastPtr(start: nat, bs: Layout, off: nat, prev: nat): nat {
    if bs == [] then prev else LastPtr(start, bs[1..], off + HEADER + bs[0].size, start + off)
  }

  lemma {:induction false} HeaderKeys(start: nat, bs: Layout, off: nat, prev: nat, next: nat)
    ensures forall o :: o in Headers(start, bs, off, prev, next) ==> off <= o && o + HEADER <= off + Total(bs)
    ensures Spaced(Headers(start, bs, off, prev, next))
  {
    if bs != [] { HeaderKeys(start, bs[1..], off + HEADER + bs[0].size, start + off, next); }
  }

  ghost predicate Spaced(hs: map<nat, Header>) {
    forall o, p :: o in hs && p in hs && o < p ==> o + HEADER <= p
  }

  lemma PutThenUnion<K, V>(a: map<K, V>, b: map<K, V>, k: K, v: V)
    requires k !in b
    ensures (a + b)[k := v] == a[k := v] + b
  {}

  lemma {:induction false} HeadersConcat(start: nat, a: Layout, b: Layout, off: nat, prev: nat, next: nat)
    ensures Headers(start, a + b, off, prev, next) ==
      Headers(start, a, off, prev, if b == [] then next else start + off + Total(a)) +
      Headers(start, b, off + Total(a), LastPtr(start, a, off, prev), next)
    ensures LastPtr(start, a + b, off, prev) == LastPtr(start, b, off + Total(a), LastPtr(start, a, off, prev))
  {
    hide Linked;
    if a == [] {
      assert a + b == b;
    } else {
      assert (a + b)[0] == a[0] && (a + b)[1..] == a[1..] + b;
      HeadersConcat(start, a[1..], b, off + HEADER + a[0].size, start + off, next);
      var tail := Headers(start, b, off + Total(a), LastPtr(start, a, off, prev), next);
      HeaderKeys(start, b, off + Total(a), LastPtr(start, a, off, prev), next);
      var inner := if b == [] then next else start + off + Total(a);
      var here := Linked(a[0], if |a| == 1 then inner else start + off + HEADER + a[0].size, prev);
      assert |a| == 1 ==> a[1..] == [];
      PutThenUnion(Headers(start, a[1..], off + HEADER + a[0].size, start + off, inner), tail, off, here);
    }
  }

  function NextPtr(start: nat, c: Layout, off: nat): nat { if c == [] then 0 else start + off }

  /** All headers of a heap, and those before, in and after its middle. */
  ghost function AllHeaders(start: nat, bs: Layout): map<nat, Header> { Headers(start, bs, 0, 0, 0) }

  ghost function Before(start: nat, a: Layout): map<nat, Header> { Headers(start, a, 0, 0, start + Total(a)) }

  ghost function Middle(start: nat, a: Layout, mid: Layout, c: Layout): map<nat, Header> {
    Headers(start, mid, Total(a), LastPtr(start, a, 0, 0), NextPtr(start, c, Total(a) + Total(mid)))
  }

  ghost function After(start: nat, off: nat, prev: nat, c: Layout): map<nat, Header> { Headers(start, c, off, prev, 0) }

  lemma HeadersTail(start: nat, ab: Layout, c: Layout)
    ensures AllHeaders(start, ab + c) ==
      Headers(start, ab, 0, 0, NextPtr(start, c, Total(ab))) + After(start, Total(ab), LastPtr(start, ab, 0, 0), c)
  {
    HeadersConcat(start, ab, c, 0, 0, 0);
  }

  lemma HeadersFront(start: nat, a: Layout, mid: Layout, next: nat)
    requires mid != []
    ensures Headers(start, a + mid, 0, 0, next) ==
      Before(start, a) + Headers(start, mid, Total(a), LastPtr(start, a, 0, 0), next)
    ensures LastPtr(start, a + mid, 0, 0) == LastPtr(start, mid, Total(a), LastPtr(start, a, 0, 0))
  {
    HeadersConcat(start, a, mid, 0, 0, next);
  }

  lemma HeadersAround(start: nat, a: Layout, mid: Layout, c: Layout)
    requires mid != []
    ensures AllHeaders(start, a + mid + c) ==
      Before(start, a) + Middle(start, a, mid, c) +
      After(start, Total(a) + Total(mid), LastPtr(start, mid, Total(a), LastPtr(start, a, 0, 0)), c)
  {
    TotalConcat(a, mid);
    HeadersTail(start, a + mid, c);
    HeadersFront(start, a, mid, NextPtr(start, c, Total(a) + Total(mid)));
  }

  // ---- Headers in memory

  ghost predicate Holds(m: seq<byte>, hs: map<nat, Header>) {
    forall o {:trigger HeldAt(m, o, hs[o])} :: o in hs ==> HeldAt(m, o, hs[o])
  }

  ghost predicate HeldAt(m: seq<byte>, o: nat, h: Header) {
    o + HEADER <= |m| && HeaderAt(m, o) == h
  }

  lemma HeaderPut(m: seq<byte>, hs: map<nat, Header>, o: nat, h: Header)
    requires Holds(m, hs) && o + HEADER <= |m| && h.Encodable()
    requires forall p :: p in hs ==> p == o || p + HEADER <= o || o + HEADER <= p
    ensures Holds(WithHeader(m, o, h), hs[o := h])
  {
    HeaderWritten(m, o, h);
    forall p | p in hs && p != o
      ensures HeldAt(WithHeader(m, o, h), p, hs[p])
    {
      assert HeldAt(m, p, hs[p]);
      HeaderSame(m, WithHeader(m, o, h), p);
    }
  }

  lemma HeaderWiped(m: seq<byte>, hs: map<nat, Header>, o: nat)
    requires Holds(m, hs) && o + HEADER <= |m|
    requires forall p :: p in hs ==> p == o || p + HEADER <= o || o + HEADER <= p
    ensures Holds(Splice(m, o, Zeros(HEADER)), hs - {o})
  {
    forall p | p in hs && p != o
      ensures HeldAt(Splice(m, o, Zeros(HEADER)), p, hs[p])
    {
      assert HeldAt(m, p, hs[p]);
      HeaderSame(m, Splice(m, o, Zeros(HEADER)), p);
    }
  }

  // ---- What the live blocks hold

  function DataAt(m: seq<byte>, off: nat, size: nat): seq<byte> {
    if off + HEADER + size <= |m| then m[off + HEADER..off + HEADER + size] else []
  }

  /** The bytes of each live block, by the address its user holds. */
  ghost function LiveMap(m: seq<byte>, start: nat, bs: Layout, off: nat): map<nat, seq<byte>> {
    if bs == [] then map[] else
    var rest := LiveMap(m, start, bs[1..], off + HEADER + bs[0].size);
    if bs[0].free then rest else rest[start + off + HEADER := DataAt(m, off, bs[0].size)]
  }

  lemma {:induction false} LiveKeys(m: seq<byte>, start: nat, bs: Layout, off: nat)
    ensures forall p :: p in LiveMap(m, start, bs, off) ==> start + off + HEADER <= p < start + off + HEADER + Total(bs)
  {
    if bs != [] { LiveKeys(m, start, bs[1..], off + HEADER + bs[0].size); }
  }

  lemma {:induction false} LiveConcat(m: seq<byte>, start: nat, a: Layout, b: Layout, off: nat)
    ensures LiveMap(m, start, a + b, off) == LiveMap(m, start, a, off) + LiveMap(m, start, b, off + Total(a))
  {
    if a == [] {
      assert a + b == b;
    } else {
      assert (a + b)[0] == a[0] && (a + b)[1..] == a[1..] + b;
      LiveConcat(m, start, a[1..], b, off + HEADER + a[0].size);
      LiveKeys(m, start, b, off + Total(a));
    }
  }

  lemma LiveAround(m: seq<byte>, start: nat, a: Layout, mid: Layout, c: Layout)
    ensures LiveMap(m, start, a + mid + c, 0) ==
      LiveMap(m, start, a, 0) + LiveMap(m, start, mid, Total(a)) + LiveMap(m, start, c, Total(a) + Total(mid))
  {
    LiveConcat(m, start, a + mid, c, 0);
    LiveConcat(m, start, a, mid, 0);
    TotalConcat(a, mid);
  }

  /** Only the first header may differ: the live bytes are the same. */
  lemma {:induction false} LiveFrame(m: seq<byte>, m': seq<byte>, start: nat, bs: Layout, off: nat)
    requires bs != [] ==> SameBytes(m, m', off + HEADER, off + Total(bs))
    ensures LiveMap(m', start, bs, off) == LiveMap(m, start, bs, off)
  {
    if bs != [] {
      assert DataAt(m', off, bs[0].size) == DataAt(m, off, bs[0].size);
      LiveFrame(m, m', start, bs[1..], off + HEADER + bs[0].size);
    }
  }
}
