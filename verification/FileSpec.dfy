/** What reading and writing a file mean, whatever stores it: a byte sequence with zero-filled gaps. */
module FileSpec {
  import opened Bytes

  // Error codes of the file interface.
  const ERR_NOENT: int := -1
  const ERR_EXIST: int := -2
  const ERR_NOTDIR: int := -3
  const ERR_ISDIR: int := -4
  const ERR_NOSPACE: int := -5
  const ERR_BADF: int := -6
  const ERR_INVAL: int := -7
  const ERR_NOEMPTY: int := -8

  function Min(a: nat, b: nat): nat { if a <= b then a else b }

  /** The content after `bs` is written at `off`; a gap below `off` reads as zero bytes. */
  function Overwrite(content: seq<byte>, off: nat, bs: seq<byte>): (r: seq<byte>)
    ensures bs != [] ==> |r| == if off + |bs| > |content| then off + |bs| else |content|
  {
    if bs == [] then content else Splice(ZeroExtend(content, off + |bs|), off, bs)
  }

  /** The bytes a read of `len` at `off` delivers. */
  function Slice(content: seq<byte>, off: nat, len: nat): (r: seq<byte>)
    ensures |r| == if off < |content| then Min(len, |content| - off) else 0
  {
    if off < |content| then content[off..off + Min(len, |content| - off)] else []
  }

  lemma SpliceTwice(s: seq<byte>, off: nat, a: seq<byte>, b: seq<byte>)
    requires off + |a| + |b| <= |s|
    ensures Splice(Splice(s, off, a), off + |a|, b) == Splice(s, off, a + b)
  {}

}
