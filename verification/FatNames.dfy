/** Short (8.3) names of directory entries: making them, reading them back, and when the two agree. */
module FatNames {
  import opened Bytes
  import opened FileSpec

  const SPACE: byte := 32
  const DOT: byte := 46

  function Upper(b: byte): byte { if 97 <= b <= 122 then b - 32 else b }
  function Lower(b: byte): byte { if 65 <= b <= 90 then b + 32 else b }

  function Uppers(s: seq<byte>): (r: seq<byte>)
    ensures |r| == |s| && forall i :: 0 <= i < |s| ==> r[i] == Upper(s[i])
  {
    seq(|s|, i requires 0 <= i < |s| => Upper(s[i]))
  }

  function Lowers(s: seq<byte>): (r: seq<byte>)
    ensures |r| == |s| && forall i :: 0 <= i < |s| ==> r[i] == Lower(s[i])
  {
    seq(|s|, i requires 0 <= i < |s| => Lower(s[i]))
  }

  function Spaces(n: nat): (r: seq<byte>)
    ensures |r| == n && forall i :: 0 <= i < n ==> r[i] == SPACE
  {
    seq(n, _ => SPACE)
  }

  /** `s` without the spaces at its end. */
  function Trim(s: seq<byte>): (r: seq<byte>)
    ensures |r| <= |s| && r == s[..|r|]
    ensures r == [] || r[|r| - 1] != SPACE
    ensures forall i :: |r| <= i < |s| ==> s[i] == SPACE
  {
    if s == [] || s[|s| - 1] != SPACE then s else Trim(s[..|s| - 1])
  }

  /** A field of `w` bytes: the first of `s` in capitals, then spaces. */
  function Field(s: seq<byte>, w: nat): (r: seq<byte>)
    ensures |r| == w
  {
    var n := Min(|s|, w);
    Uppers(s[..n]) + Spaces(w - n)
  }

  /** The position of the last dot, or `|s|` when there is none. */
  function LastDot(s: seq<byte>): (d: nat)
    ensures d <= |s| && (d < |s| ==> s[d] == DOT)
    ensures forall i :: 0 <= i < |s| && (d == |s| || d < i) ==> s[i] != DOT
  {
    if s == [] then 0
    else if s[|s| - 1] == DOT then |s| - 1
    else var d := LastDot(s[..|s| - 1]); if d == |s| - 1 then |s| else d
  }

  function BaseOf(s: seq<byte>): seq<byte> { s[..LastDot(s)] }
  function ExtOf(s: seq<byte>): seq<byte> { if LastDot(s) < |s| then s[LastDot(s) + 1..] else [] }

  /** A directory entry's eleven name bytes. */
  datatype ShortName = ShortName(base: seq<byte>, ext: seq<byte>) {
    predicate Wide() { |base| == 8 && |ext| == 3 }
  }

  function Made(fname: seq<byte>): ShortName { ShortName(Field(BaseOf(fname), 8), Field(ExtOf(fname), 3)) }

  function Parsed(n: ShortName): seq<byte> {
    Lowers(Trim(n.base)) + if Trim(n.ext) == [] then [] else [DOT] + Lowers(Trim(n.ext))
  }

  /** A C string's characters: those before the first zero byte. */
  function CStr(s: seq<byte>): (r: seq<byte>)
    ensures |r| <= |s| && r == s[..|r|] && 0 !in r
    ensures |r| < |s| ==> s[|r|] == 0
  {
    if s == [] || s[0] == 0 then [] else [s[0]] + CStr(s[1..])
  }

  lemma {:induction false} CStrIs(s: seq<byte>, n: nat)
    requires n < |s| && s[n] == 0 && 0 !in s[..n]
    ensures CStr(s) == s[..n]
  {
    if n > 0 {
      assert s[0] in s[..n] && s[1..][..n - 1] == s[..n][1..];
      CStrIs(s[1..], n - 1);
    }
  }

  method MakeName(fname: seq<byte>, nameOut: array<byte>, extOut: array<byte>)
    requires nameOut.Length == 8 && extOut.Length == 3 && nameOut != extOut
    modifies nameOut, extOut
    ensures ShortName(nameOut[..], extOut[..]) == Made(fname)
  {
    var dot := FindDot(fname);
    FillField(fname[..if dot >= 0 then dot else |fname|], nameOut);
    FillField(if dot >= 0 then fname[dot + 1..] else [], extOut);
    assert fname[..|fname|] == fname;
  }

  /** The position of the last dot, or -1. */
  method FindDot(s: seq<byte>) returns (dot: int)
    ensures dot == if LastDot(s) < |s| then LastDot(s) else -1
  {
    dot := |s| - 1;
    while dot >= 0 && s[dot] != DOT
      invariant -1 <= dot < |s|
      invariant forall j :: dot < j < |s| ==> s[j] != DOT
    {
      dot := dot - 1;
    }
  }

  /** Spaces first, then the characters in capitals as far as they fit. */
  method FillField(s: seq<byte>, out: array<byte>)
    modifies out
    ensures out[..] == Field(s, out.Length)
  {
    forall i | 0 <= i < out.Length { out[i] := SPACE; }
    var n: nat := 0;
    while n < |s| && n < out.Length
      invariant n <= |s| && n <= out.Length
      invariant forall i :: 0 <= i < out.Length ==> out[i] == if i < n then Upper(s[i]) else SPACE
    {
      out[n] := Upper(s[n]);
      n := n + 1;
    }
  }

  method ParseName(n: ShortName) returns (out: seq<byte>)
    requires n.Wide()
    ensures out == Parsed(n)
  {
    out := [];
    var nameLen := TrimmedLength(n.base);
    for j := 0 to nameLen
      invariant out == Lowers(n.base[..j])
    {
      out := out + [Lower(n.base[j])];
    }
    var extLen := TrimmedLength(n.ext);
    if extLen > 0 {
      ghost var head := out;
      out := out + [DOT];
      for j := 0 to extLen
        invariant out == head + [DOT] + Lowers(n.ext[..j])
      {
        out := out + [Lower(n.ext[j])];
      }
    }
  }

  method TrimmedLength(s: seq<byte>) returns (n: nat)
    ensures n <= |s| && s[..n] == Trim(s)
  {
    n := |s|;
    while n > 0 && s[n - 1] == SPACE
      invariant n <= |s| && Trim(s[..n]) == Trim(s)
    {
      assert s[..n][..n - 1] == s[..n - 1];
      n := n - 1;
    }
    assert s[..|s|] == s;
  }

  // ---- When making and parsing undo each other

  /** The names an 8.3 entry can hold. */
  predicate Fits83(fname: seq<byte>) {
    && |BaseOf(fname)| <= 8 && Trim(BaseOf(fname)) == BaseOf(fname)
    && (LastDot(fname) < |fname| ==> 1 <= |ExtOf(fname)| <= 3 && Trim(ExtOf(fname)) == ExtOf(fname))
  }

  lemma TrimUnique(s: seq<byte>, n: nat)
    requires n <= |s| && (n == 0 || s[n - 1] != SPACE) && forall i :: n <= i < |s| ==> s[i] == SPACE
    ensures Trim(s) == s[..n]
  {
    var m := |Trim(s)|;
    if n > 0 { assert s[n - 1] != SPACE; }
    if m > 0 { assert Trim(s)[m - 1] == s[m - 1]; }
  }

  lemma TrimField(s: seq<byte>, w: nat)
    ensures Trim(Field(s, w)) == Uppers(Trim(s[..Min(|s|, w)]))
  {
    var head := s[..Min(|s|, w)];
    TrimUnique(Field(s, w), |Trim(head)|);
  }

  lemma LowersOfUppers(s: seq<byte>)
    ensures Lowers(Uppers(s)) == Lowers(s)
  {}

  lemma Joined(s: seq<byte>, a: seq<byte>, x: byte, b: seq<byte>)
    requires |s| == |a| + 1 + |b| && s[|a|] == x
    requires forall i :: 0 <= i < |a| ==> s[i] == a[i]
    requires forall i :: 0 <= i < |b| ==> s[|a| + 1 + i] == b[i]
    ensures s == a + [x] + b
  {}

  lemma LowersAround(s: seq<byte>, d: nat)
    requires d < |s| && s[d] == DOT
    ensures Lowers(s) == Lowers(s[..d]) + [DOT] + Lowers(s[d + 1..])
  {
    var base, ext := s[..d], s[d + 1..];
    forall i | 0 <= i < |ext|
      ensures Lowers(s)[d + 1 + i] == Lowers(ext)[i]
    {
      assert ext[i] == s[d + 1 + i];
    }
    Joined(Lowers(s), Lowers(base), DOT, Lowers(ext));
  }

  /** A part of a name survives in a field of `w` bytes exactly when it fits and ends in no space. */
  lemma KeptInField(s: seq<byte>, w: nat)
    ensures var t := Trim(s[..Min(|s|, w)]);
      |t| <= |s| && (|t| == |s| <==> |s| <= w && Trim(s) == s) && (|t| == |s| ==> t == s)
  {
    assert s[..|s|] == s;
  }

  lemma ParsedMade(fname: seq<byte>)
    ensures var base, ext := BaseOf(fname), ExtOf(fname);
      var tb, te := Trim(base[..Min(|base|, 8)]), Trim(ext[..Min(|ext|, 3)]);
      Parsed(Made(fname)) == Lowers(tb) + if te == [] then [] else [DOT] + Lowers(te)
  {
    TrimField(BaseOf(fname), 8);
    TrimField(ExtOf(fname), 3);
    LowersOfUppers(Trim(BaseOf(fname)[..Min(|BaseOf(fname)|, 8)]));
    LowersOfUppers(Trim(ExtOf(fname)[..Min(|ExtOf(fname)|, 3)]));
  }

  lemma FittingPartsKept(fname: seq<byte>)
    requires Fits83(fname)
    ensures Parsed(Made(fname)) == Lowers(BaseOf(fname)) +
      if LastDot(fname) < |fname| then [DOT] + Lowers(ExtOf(fname)) else []
  {
    ParsedMade(fname);
    KeptInField(BaseOf(fname), 8);
    KeptInField(ExtOf(fname), 3);
  }

  lemma FittingNameKept(fname: seq<byte>)
    requires Fits83(fname)
    ensures Parsed(Made(fname)) == Lowers(fname)
  {
    hide Parsed, Made, Fits83, Lowers, LastDot;
    FittingPartsKept(fname);
    var d := LastDot(fname);
    if d < |fname| {
      LowersAround(fname, d);
      assert Lowers(fname[..d]) + ([DOT] + Lowers(fname[d + 1..])) == Lowers(fname[..d]) + [DOT] + Lowers(fname[d + 1..]);
    } else {
      assert fname[..|fname|] == fname;
    }
  }

  lemma LongNameShortened(fname: seq<byte>)
    requires !Fits83(fname)
    ensures |Parsed(Made(fname))| < |fname|
  {
    ParsedMade(fname);
    KeptInField(BaseOf(fname), 8);
    KeptInField(ExtOf(fname), 3);
  }

  /** Parsing a made name gives the lower-cased name exactly for the names that fit. */
  lemma MadeThenParsed(fname: seq<byte>)
    ensures Parsed(Made(fname)) == Lowers(fname) <==> Fits83(fname)
  {
    if Fits83(fname) { FittingNameKept(fname); } else { LongNameShortened(fname); }
  }

  /** The names that come back from the entry made for them. */
  predicate KeepsName(fname: seq<byte>) { Fits83(fname) && Lowers(fname) == fname }

  /** The entries that their own parsed name makes again. */
  predicate Canonical(n: ShortName) {
    && Plain(n.base) && Plain(n.ext)
    && DOT !in n.ext
    && (DOT in n.base ==> Trim(n.ext) != [])
  }

  lemma LastDotUnique(s: seq<byte>, d: nat)
    requires d <= |s| && (d < |s| ==> s[d] == DOT) && forall i :: d < i < |s| ==> s[i] != DOT
    requires d == |s| ==> DOT !in s
    ensures LastDot(s) == d
  {}

  lemma {:induction false} NoZeroIsCStr(s: seq<byte>)
    requires 0 !in s
    ensures CStr(s) == s
  {
    if s != [] { NoZeroIsCStr(s[1..]); }
  }

  predicate Plain(s: seq<byte>) { forall i :: 0 <= i < |s| ==> s[i] != 0 && Upper(s[i]) == s[i] }

  lemma FieldOfLowers(s: seq<byte>)
    requires Plain(s)
    ensures Field(Lowers(Trim(s)), |s|) == s
  {
    var t := Trim(s);
    assert Lowers(t)[..|t|] == Lowers(t);
    forall i | 0 <= i < |s|
      ensures Field(Lowers(t), |s|)[i] == s[i]
    {
      if i < |t| { assert t[i] == s[i]; }
    }
  }

  /** A name put together from a base and an extension comes apart again at its last dot. */
  lemma JoinedParts(a: seq<byte>, e: seq<byte>)
    requires DOT !in e && (e == [] ==> DOT !in a)
    ensures var p := a + if e == [] then [] else [DOT] + e; BaseOf(p) == a && ExtOf(p) == e
  {
    hide LastDot;
    var p := a + if e == [] then [] else [DOT] + e;
    forall i | |a| < i < |p|
      ensures p[i] != DOT
    {
      assert p[i] == e[i - |a| - 1];
    }
    LastDotUnique(p, |a|);
    assert p[..|a|] == a;
    assert e != [] ==> p[|a| + 1..] == e;
  }

  lemma LowersHold(s: seq<byte>, x: byte)
    requires x == 0 || x == DOT
    ensures x in Lowers(s) ==> x in s
  {
    if x in Lowers(s) {
      var i :| 0 <= i < |s| && Lowers(s)[i] == x;
      assert s[i] == x;
    }
  }

  lemma TrimHolds(s: seq<byte>, x: byte)
    ensures x in Trim(s) ==> x in s
  {}

  lemma CanonicalParts(n: ShortName)
    requires n.Wide() && Canonical(n)
    ensures var tb, te, p := Trim(n.base), Trim(n.ext), Parsed(n);
      0 !in p && BaseOf(p) == Lowers(tb) && ExtOf(p) == Lowers(te)
  {
    hide LastDot, BaseOf, ExtOf, Trim;
    var a, e := Lowers(Trim(n.base)), Lowers(Trim(n.ext));
    LowersHold(Trim(n.base), 0);
    LowersHold(Trim(n.ext), 0);
    LowersHold(Trim(n.base), DOT);
    LowersHold(Trim(n.ext), DOT);
    TrimHolds(n.base, 0);
    TrimHolds(n.ext, 0);
    TrimHolds(n.base, DOT);
    TrimHolds(n.ext, DOT);
    JoinedParts(a, e);
  }

  lemma CanonicalMadeAgain(n: ShortName)
    requires n.Wide() && Canonical(n)
    ensures Made(CStr(Parsed(n))) == n
  {
    CanonicalParts(n);
    NoZeroIsCStr(Parsed(n));
    FieldOfLowers(n.base);
    FieldOfLowers(n.ext);
  }

  lemma FieldIsPlain(s: seq<byte>, w: nat)
    requires 0 !in s
    ensures Plain(Field(s, w)) && (DOT !in s ==> DOT !in Field(s, w))
  {
    assert forall i :: 0 <= i < |s| ==> s[i] in s;
  }

  lemma MadeIsPlain(s: seq<byte>)
    requires 0 !in s
    ensures Plain(Made(s).base) && Plain(Made(s).ext) && DOT !in Made(s).ext
  {
    assert 0 !in BaseOf(s) && 0 !in ExtOf(s);
    FieldIsPlain(BaseOf(s), 8);
    FieldIsPlain(ExtOf(s), 3);
  }

  lemma MadeIsCanonical(n: ShortName)
    requires n.Wide() && Made(CStr(Parsed(n))) == n
    ensures Canonical(n)
  {
    hide Made;
    MadeIsPlain(CStr(Parsed(n)));
    if Trim(n.ext) == [] { NoDotWithoutExtension(n); }
  }

  lemma NoDotWithoutExtension(n: ShortName)
    requires n.Wide() && Made(CStr(Parsed(n))) == n && Plain(n.base) && Trim(n.ext) == []
    ensures DOT !in n.base
  {
    var a, p := Trim(n.base), Lowers(Trim(n.base));
    assert Parsed(n) == p;
    assert 0 !in p;
    NoZeroIsCStr(p);
    hide LastDot, Trim, Field, CStr, Lowers;
    TrimField(BaseOf(p), 8);
    assert |a| <= |BaseOf(p)|;
    LowersOfNoDot(a);
    NoDotInTrim(n.base);
  }

  lemma LowersOfNoDot(a: seq<byte>)
    ensures DOT !in Lowers(a) ==> DOT !in a
  {
    if DOT in a {
      var i :| 0 <= i < |a| && a[i] == DOT;
      assert Lowers(a)[i] == DOT;
    }
  }

  lemma NoDotInTrim(s: seq<byte>)
    ensures DOT !in Trim(s) ==> DOT !in s
  {
    if DOT in s {
      var i :| 0 <= i < |s| && s[i] == DOT;
      assert i < |Trim(s)| && Trim(s)[i] == DOT;
    }
  }

  /** Making the parsed name of an entry gives the entry back exactly for the canonical ones. */
  lemma ParsedThenMade(n: ShortName)
    requires n.Wide()
    ensures Made(CStr(Parsed(n))) == n <==> Canonical(n)
  {
    if Canonical(n) { CanonicalMadeAgain(n); }
    if Made(CStr(Parsed(n))) == n { MadeIsCanonical(n); }
  }
}
