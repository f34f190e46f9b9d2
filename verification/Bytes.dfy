/** Bytes, little-endian words and the two sequence operations every driver here is built from. */
module Bytes {
  type byte = x: int | 0 <= x < 256

  const TWO28: nat := 0x1000_0000
  const TWO32: nat := 0x1_0000_0000
  const TWO64: nat := 0x1_0000_0000_0000_0000

  /** A C conversion to `uint32_t`. */
  function U32(x: nat): (r: nat)
    ensures r < TWO32
    ensures x < TWO32 ==> r == x
  {
    x % TWO32
  }

  /** A C conversion to `uint64_t`. */
  function U64(x: nat): (r: nat)
    ensures r < TWO64
    ensures x < TWO64 ==> r == x
  {
    x % TWO64
  }

  /** Conversions go round. */
  lemma Wraps(x: nat)
    ensures U32(x + TWO32) == U32(x) && U64(x + TWO64) == U64(x)
  {}

  function Zeros(n: nat): (z: seq<byte>)
    ensures |z| == n && forall i :: 0 <= i < n ==> z[i] == 0
  {
    seq(n, _ => 0)
  }

  /** `s` with the bytes from `off` on replaced by `bs`. */
  function Splice(s: seq<byte>, off: nat, bs: seq<byte>): (r: seq<byte>)
    requires off + |bs| <= |s|
    ensures |r| == |s|
    ensures forall i :: 0 <= i < |s| ==> r[i] == if off <= i < off + |bs| then bs[i - off] else s[i]
  {
    s[..off] + bs + s[off + |bs|..]
  }

  /** `s` made at least `n` bytes long by zero bytes at its end. */
  function ZeroExtend(s: seq<byte>, n: nat): (r: seq<byte>)
    ensures |r| == if |s| < n then n else |s|
    ensures forall i :: 0 <= i < |r| ==> r[i] == if i < |s| then s[i] else 0
  {
    if |s| < n then s + Zeros(n - |s|) else s
  }

  function Pow256(n: nat): (p: nat)
    ensures p > 0
  {
    if n == 0 then 1 else 256 * Pow256(n - 1)
  }

  function ToLE(v: nat, n: nat): (s: seq<byte>)
    ensures |s| == n
  {
    if n == 0 then [] else [v % 256] + ToLE(v / 256, n - 1)
  }

  function FromLE(s: seq<byte>): nat {
    if s == [] then 0 else s[0] + 256 * FromLE(s[1..])
  }

  /** The lowest byte comes first. */
  lemma WordBytes(s: seq<byte>)
    ensures |s| == 4 ==> FromLE(s) == s[0] as nat + 0x100 * s[1] as nat + 0x1_0000 * s[2] as nat + 0x100_0000 * s[3] as nat
    ensures |s| == 8 ==> FromLE(s) == FromLE(s[..4]) + TWO32 * FromLE(s[4..])
  {
    if |s| == 4 {
      FourBytes(s);
    } else if |s| == 8 {
      FourBytes(s[..4]);
      FourBytes(s[4..]);
      assert FromLE(s) == s[0] as nat + 256 * (s[1] as nat + 256 * (s[2] as nat + 256 * (s[3] as nat + 256 * FromLE(s[4..])))) by { FourMore(s); }
    }
  }

  lemma FourBytes(s: seq<byte>)
    requires |s| == 4
    ensures FromLE(s) == s[0] as nat + 0x100 * s[1] as nat + 0x1_0000 * s[2] as nat + 0x100_0000 * s[3] as nat
  {
    FourMore(s);
    assert s[4..] == [];
  }

  lemma FourMore(s: seq<byte>)
    requires |s| >= 4
    ensures FromLE(s) == s[0] as nat + 256 * (s[1] as nat + 256 * (s[2] as nat + 256 * (s[3] as nat + 256 * FromLE(s[4..]))))
  {
    assert s[1..][1..] == s[2..] && s[2..][1..] == s[3..] && s[3..][1..] == s[4..];
  }

  lemma {:induction false} FromLEBound(s: seq<byte>)
    ensures FromLE(s) < Pow256(|s|)
  {
    if s != [] { FromLEBound(s[1..]); }
  }

  lemma {:induction false} FromToLE(v: nat, n: nat)
    requires v < Pow256(n)
    ensures FromLE(ToLE(v, n)) == v
  {
    if n > 0 {
      FromToLE(v / 256, n - 1);
      assert ToLE(v, n)[1..] == ToLE(v / 256, n - 1);
    }
  }

  lemma Pow256Values()
    ensures Pow256(2) == 0x1_0000 && Pow256(4) == TWO32 && Pow256(8) == TWO64
  {
    assert Pow256(2) == 256 * Pow256(1) && Pow256(1) == 256 * Pow256(0);
    assert Pow256(4) == 256 * Pow256(3) && Pow256(3) == 256 * Pow256(2);
    assert Pow256(8) == 256 * Pow256(7) && Pow256(7) == 256 * Pow256(6);
    assert Pow256(6) == 256 * Pow256(5) && Pow256(5) == 256 * Pow256(4);
  }

  /** `[f(0), ..., f(n - 1)]`, unfolded one element at a time so that proofs see only the elements they name. */
  ghost function Tabulate<T>(n: nat, f: nat -> T): (s: seq<T>)
    ensures |s| == n
  {
    if n == 0 then [] else Tabulate(n - 1, f) + [f(n - 1)]
  }

  lemma {:induction false} TabulateAt<T>(n: nat, f: nat -> T, i: nat)
    requires i < n
    ensures Tabulate(n, f)[i] == f(i)
  {
    if i < n - 1 { TabulateAt(n - 1, f, i); }
  }
}
