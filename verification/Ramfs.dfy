/** Files of the RAM filesystem: a heap buffer that grows by doubling. */
module Ramfs {
  import opened Bytes
  import opened FileSpec

  const INITIAL_CAP: nat := 256
  const MAX_FILESIZE: nat := 512 * 1024

  /** The content after a write that is not refused: a write of nothing past the end still moves the end. */
  function RamWritten(content: seq<byte>, off: nat, bs: seq<byte>): (r: seq<byte>)
    ensures |r| == if off + |bs| > |content| then off + |bs| else |content|
  {
    Splice(ZeroExtend(content, off + |bs|), off, bs)
  }

  /** It is the plain overwrite exactly when something is written or the offset is not past the end. */
  lemma RamWriteIsOverwrite(content: seq<byte>, off: nat, bs: seq<byte>)
    ensures RamWritten(content, off, bs) == Overwrite(content, off, bs) <==> bs != [] || off <= |content|
  {
    if bs == [] && off <= |content| { assert RamWritten(content, off, bs) == content; }
  }

  /** `cap` after `k` doublings. */
  function Doubled(cap: nat, k: nat): nat { if k == 0 then cap else 2 * Doubled(cap, k - 1) }

  /** `cap` is what comes of doubling the capacity as often as it takes to hold `end` bytes, but at least once, within the limit. */
  ghost predicate GrownFor(capacity: nat, end: nat, cap: nat) {
    var first := if capacity != 0 then capacity * 2 else INITIAL_CAP;
    exists k: nat :: DoubledEnough(first, k, end) && cap == Min(MAX_FILESIZE, Doubled(first, k))
  }

  /** `k` doublings of `first` are enough for `end` bytes, and no fewer. */
  predicate DoubledEnough(first: nat, k: nat, end: nat) { end <= Doubled(first, k) && (k > 0 ==> Doubled(first, k - 1) < end) }

  /** The capacity doubled until it holds `end` bytes. */
  method GrownCapacity(capacity: nat, end: nat) returns (cap: nat)
    requires capacity < end <= MAX_FILESIZE
    ensures end <= cap <= MAX_FILESIZE && GrownFor(capacity, end, cap)
  {
    cap := if capacity != 0 then capacity * 2 else INITIAL_CAP;
    ghost var first, k: nat := cap, 0;
    while cap < end
      invariant cap > 0 && cap == Doubled(first, k) && (k > 0 ==> Doubled(first, k - 1) < end)
      decreases end - cap
    {
      cap, k := cap * 2, k + 1;
    }
    if cap > MAX_FILESIZE { cap := MAX_FILESIZE; }
    GrownBy(capacity, end, cap, k);
  }

  lemma GrownBy(capacity: nat, end: nat, cap: nat, k: nat)
    requires var first := if capacity != 0 then capacity * 2 else INITIAL_CAP;
      DoubledEnough(first, k, end) && cap == Min(MAX_FILESIZE, Doubled(first, k))
    ensures GrownFor(capacity, end, cap)
  {}

  class RamFile {
    var data: array<byte>
    var size: nat
    var capacity: nat
    /** `node->size`, which the descriptor layer reads. */
    var nodeSize: nat

    /** The bytes beyond the end are zero. */
    ghost predicate Valid()
      reads this, data
    {
      && size <= capacity == data.Length <= MAX_FILESIZE
      && forall i :: size <= i < capacity ==> data[i] == 0
    }

    ghost function Content(): (s: seq<byte>)
      requires Valid()
      reads this, data
      ensures |s| == size
    {
      data[..size]
    }

    /** A file as `ramfs_create` makes it. */
    constructor ()
      ensures Valid() && Content() == [] && nodeSize == 0 && capacity == INITIAL_CAP && fresh(data)
    {
      data := new byte[INITIAL_CAP](_ => 0);
      size, capacity, nodeSize := 0, INITIAL_CAP, 0;
    }

    method Read(offset: nat, count: nat) returns (out: seq<byte>)
      requires Valid()
      ensures out == Slice(Content(), offset, count)
    {
      if offset >= size { return []; }
      var toRead := Min(count, size - offset);
      out := data[offset..offset + toRead];
    }

    /**
     * Writes past the size limit, or that need a buffer the heap does not grant, are refused; all others
     * are complete. 64-bit sums do not wrap around.
     */
    method Write(offset: nat, bs: seq<byte>, granted: bool) returns (n: int)
      requires Valid() && offset + |bs| < TWO64
      modifies this, data
      ensures Valid() && (data == old(data) || fresh(data))
      ensures n == if offset + |bs| > MAX_FILESIZE || (offset + |bs| > old(capacity) && !granted) then ERR_NOSPACE else |bs|
      ensures Content() == if n == ERR_NOSPACE then old(Content()) else RamWritten(old(Content()), offset, bs)
      ensures nodeSize == if n != ERR_NOSPACE && offset + |bs| > old(size) then size else old(nodeSize)
      ensures if n == ERR_NOSPACE || offset + |bs| <= old(capacity) then capacity == old(capacity)
              else GrownFor(old(capacity), offset + |bs|, capacity)
    {
      var end := offset + |bs|;
      if end > MAX_FILESIZE { return ERR_NOSPACE; }
      if end > capacity {
        if !granted { return ERR_NOSPACE; }
        Grow(end);
      }
      Copy(offset, bs);
      if end > size {
        size := end;
        nodeSize := end;
      }
      assert Content() == RamWritten(old(Content()), offset, bs);
      n := |bs|;
    }

    /** Moves the content to a larger, zeroed buffer. */
    method Grow(end: nat)
      requires Valid() && capacity < end <= MAX_FILESIZE
      modifies `data, `capacity
      ensures Valid() && fresh(data) && end <= capacity && GrownFor(old(capacity), end, capacity) && Content() == old(Content())
    {
      var cap := GrownCapacity(capacity, end);
      var bigger := new byte[cap](_ => 0);
      for i := 0 to size
        invariant unchanged(this) && unchanged(data)
        invariant forall j :: 0 <= j < cap ==> bigger[j] == if j < i then data[j] else 0
      {
        bigger[i] := data[i];
      }
      data, capacity := bigger, cap;
    }

    method Copy(offset: nat, bs: seq<byte>)
      requires offset + |bs| <= data.Length
      modifies data
      ensures data[..] == Splice(old(data[..]), offset, bs)
    {
      for i := 0 to |bs|
        invariant forall j :: 0 <= j < data.Length ==> data[j] == if offset <= j < offset + i then bs[j - offset] else old(data[j])
      {
        data[offset + i] := bs[i];
      }
    }
  }
}
