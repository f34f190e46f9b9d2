/** Paths over the RAM filesystem's directory tree: resolving them, and spelling the current directory. */
module VfsPath {
  import opened Bytes
  import opened FileSpec
  import opened FatNames

  type Ptr = nat
  const NULL: Ptr := 0
  const SLASH: byte := 47
  const NAME_MAX: nat := 64
  const PATH_MAX: nat := 256
  const MAX_DEPTH: nat := 16
  const MAX_CHILDREN: nat := 64

  type Name = seq<byte>

  /** A `vfs_node_t` with the directory part of its `ramfs_inode_t`. */
  datatype TNode = TNode(name: Name, isDir: bool, parent: Ptr, mount: Ptr, children: seq<Ptr>)

  type Nodes = map<Ptr, TNode>

  // ---- The tree

  /** The first of `cs` that has this name, or NULL. */
  function FindNamed(nodes: Nodes, cs: seq<Ptr>, name: Name): (p: Ptr)
    ensures p != NULL ==> p in cs && p in nodes && nodes[p].name == name
  {
    if cs == [] then NULL
    else if cs[0] != NULL && cs[0] in nodes && nodes[cs[0]].name == name then cs[0]
    else FindNamed(nodes, cs[1..], name)
  }

  function Lookup(nodes: Nodes, d: Ptr, name: Name): Ptr {
    if d in nodes && nodes[d].isDir then FindNamed(nodes, nodes[d].children, name) else NULL
  }

  /** Names as path components can be: not empty, short enough, no slash, and neither "." nor "..". */
  predicate GoodName(c: Name) {
    0 < |c| < NAME_MAX && SLASH !in c && 0 !in c && c != [DOT] && c != [DOT, DOT]
  }

  ghost predicate GoodChildren(nodes: Nodes, d: Ptr)
    requires d in nodes
  {
    && (nodes[d].children != [] ==> nodes[d].isDir)
    && (forall p :: p in nodes[d].children ==> p != NULL && p in nodes && nodes[p].parent == d && GoodName(nodes[p].name))
    && UniqueNames(nodes, nodes[d].children)
  }

  ghost predicate UniqueNames(nodes: Nodes, cs: seq<Ptr>) {
    forall i, j :: 0 <= i < j < |cs| && cs[i] in nodes && cs[j] in nodes ==> nodes[cs[i]].name != nodes[cs[j]].name
  }

  /** A tree with unique names among siblings; `depth` counts the steps to the root. */
  ghost predicate TreeOk(nodes: Nodes, root: Ptr, depth: map<Ptr, nat>) {
    && NULL !in nodes && root in nodes && nodes[root].isDir && nodes[root].parent == root && nodes[root].name == [SLASH]
    && nodes.Keys <= depth.Keys
    && (forall d {:trigger GoodChildren(nodes, d)} :: d in nodes ==> GoodChildren(nodes, d))
    && (forall p {:trigger Attached(nodes, depth, p)} :: p in nodes && p != root ==> Attached(nodes, depth, p))
  }

  ghost predicate Attached(nodes: Nodes, depth: map<Ptr, nat>, p: Ptr)
    requires p in nodes
  {
    && nodes[p].parent in nodes && p in nodes[nodes[p].parent].children
    && p in depth && nodes[p].parent in depth && depth[p] == depth[nodes[p].parent] + 1
  }

  lemma {:induction false} NamedFound(nodes: Nodes, cs: seq<Ptr>, p: Ptr)
    requires p in cs && UniqueNames(nodes, cs) && forall q :: q in cs ==> q != NULL && q in nodes
    ensures FindNamed(nodes, cs, nodes[p].name) == p
  {
    if cs[0] != p {
      var i :| 0 <= i < |cs| && cs[i] == p;
      assert nodes[cs[0]].name != nodes[cs[i]].name;
      assert UniqueNames(nodes, cs[1..]);
      NamedFound(nodes, cs[1..], p);
    }
  }

  /** A node is what its parent finds under its name. */
  lemma LookupOwnName(nodes: Nodes, root: Ptr, depth: map<Ptr, nat>, p: Ptr)
    requires TreeOk(nodes, root, depth) && p in nodes && p != root
    ensures nodes[p].parent in nodes && Lookup(nodes, nodes[p].parent, nodes[p].name) == p && GoodName(nodes[p].name)
  {
    assert Attached(nodes, depth, p);
    assert GoodChildren(nodes, nodes[p].parent);
    NamedFound(nodes, nodes[nodes[p].parent].children, p);
  }

  // ---- Walking down, and spelling the way up

  function Enter(nodes: Nodes, p: Ptr): Ptr {
    if p in nodes && nodes[p].mount != NULL then nodes[p].mount else p
  }

  /** The parent, if there is one. */
  function Up(nodes: Nodes, p: Ptr): Ptr {
    if p in nodes && nodes[p].parent != NULL then nodes[p].parent else p
  }

  /** One lookup after the other, following mount points; NULL once a name is missing. */
  function Walk(nodes: Nodes, from: Ptr, comps: seq<Name>): Ptr
    decreases |comps|
  {
    if comps == [] then from else
    var d := Walk(nodes, from, comps[..|comps| - 1]);
    if d == NULL then NULL else
    var p := Lookup(nodes, d, comps[|comps| - 1]);
    if p == NULL then NULL else Enter(nodes, p)
  }

  /** One step of resolving a path. */
  function Step(nodes: Nodes, p: Ptr, c: Name): Ptr {
    if c == [DOT] then p
    else if c == [DOT, DOT] then Up(nodes, p)
    else var q := Lookup(nodes, p, c); if q == NULL then NULL else Enter(nodes, q)
  }

  /** One step after the other, until a name is missing. */
  function Follow(nodes: Nodes, from: Ptr, comps: seq<Name>): Ptr
    decreases |comps|
  {
    if comps == [] then from else
    var p := Follow(nodes, from, comps[..|comps| - 1]);
    if p == NULL then NULL else Step(nodes, p, comps[|comps| - 1])
  }

  lemma FollowMore(nodes: Nodes, from: Ptr, comps: seq<Name>, c: Name)
    ensures Follow(nodes, from, comps + [c]) == var p := Follow(nodes, from, comps); if p == NULL then NULL else Step(nodes, p, c)
  {
    assert (comps + [c])[..|comps|] == comps;
  }

  lemma {:induction false} FollowNull(nodes: Nodes, from: Ptr, comps: seq<Name>, more: seq<Name>)
    requires Follow(nodes, from, comps) == NULL
    ensures Follow(nodes, from, comps + more) == NULL
    decreases |more|
  {
    if more == [] {
      assert comps + more == comps;
    } else {
      FollowNull(nodes, from, comps, more[..|more| - 1]);
      FollowMore(nodes, from, comps + more[..|more| - 1], more[|more| - 1]);
      assert comps + more == comps + more[..|more| - 1] + [more[|more| - 1]];
    }
  }

  /** On good names following a path is looking one name up after the other. */
  lemma {:induction false} FollowIsWalk(nodes: Nodes, from: Ptr, comps: seq<Name>)
    requires GoodNames(comps)
    ensures Follow(nodes, from, comps) == Walk(nodes, from, comps)
    decreases |comps|
  {
    if comps != [] {
      assert GoodName(comps[|comps| - 1]);
      FollowIsWalk(nodes, from, comps[..|comps| - 1]);
    }
  }

  /** A slash before every component. */
  function PathString(comps: seq<Name>): seq<byte>
    decreases |comps|
  {
    if comps == [] then [] else PathString(comps[..|comps| - 1]) + [SLASH] + comps[|comps| - 1]
  }

  predicate GoodNames(comps: seq<Name>) { forall i :: 0 <= i < |comps| ==> GoodName(comps[i]) }

  /** The names from the root down to `p`. */
  ghost function NamesTo(nodes: Nodes, root: Ptr, depth: map<Ptr, nat>, p: Ptr): (names: seq<Name>)
    requires TreeOk(nodes, root, depth) && p in nodes
    decreases depth[p]
  {
    if p == root then [] else
    assert Attached(nodes, depth, p);
    NamesTo(nodes, root, depth, nodes[p].parent) + [nodes[p].name]
  }

  /** No directory between the root and `p` has something mounted on it. */
  ghost predicate NoMounts(nodes: Nodes, root: Ptr, depth: map<Ptr, nat>, p: Ptr)
    requires TreeOk(nodes, root, depth) && p in nodes
    decreases depth[p]
  {
    nodes[p].mount == NULL && (p != root ==> (assert Attached(nodes, depth, p); NoMounts(nodes, root, depth, nodes[p].parent)))
  }

  /** Walking the names that lead to a node leads to it. */
  lemma {:induction false} WalkBack(nodes: Nodes, root: Ptr, depth: map<Ptr, nat>, p: Ptr)
    requires TreeOk(nodes, root, depth) && p in nodes && NoMounts(nodes, root, depth, p)
    ensures Walk(nodes, root, NamesTo(nodes, root, depth, p)) == p
    ensures GoodNames(NamesTo(nodes, root, depth, p))
    decreases depth[p]
  {
    if p != root {
      assert Attached(nodes, depth, p);
      WalkBack(nodes, root, depth, nodes[p].parent);
      LookupOwnName(nodes, root, depth, p);
      var names := NamesTo(nodes, root, depth, p);
      assert names[..|names| - 1] == NamesTo(nodes, root, depth, nodes[p].parent);
    }
  }

  // ---- The pieces of a path string

  /** At `pos` there is a slash, the component `c`, and then a slash or the end. */
  predicate StartsWith(path: seq<byte>, pos: nat, c: Name) {
    && pos + 1 + |c| <= |path| && path[pos] == SLASH && path[pos + 1..pos + 1 + |c|] == c
    && (pos + 1 + |c| < |path| ==> path[pos + 1 + |c|] == SLASH)
  }

  lemma {:induction false} PathPrefix(comps: seq<Name>, i: nat)
    requires i <= |comps|
    ensures |PathString(comps[..i])| <= |PathString(comps)| && PathString(comps)[..|PathString(comps[..i])|] == PathString(comps[..i])
    ensures i < |comps| ==> |PathString(comps[..i])| < |PathString(comps)| && PathString(comps)[|PathString(comps[..i])|] == SLASH
    decreases |comps|
  {
    if i == |comps| {
      assert comps[..i] == comps;
    } else {
      var init := comps[..|comps| - 1];
      PathPrefix(init, i);
      assert init[..i] == comps[..i];
    }
  }

  /** The `i`-th component stands where the path of those before it ends. */
  lemma ComponentAt(comps: seq<Name>, i: nat)
    requires i < |comps|
    ensures StartsWith(PathString(comps), |PathString(comps[..i])|, comps[i])
    ensures |PathString(comps[..i + 1])| == |PathString(comps[..i])| + 1 + |comps[i]|
    ensures i + 1 == |comps| ==> |PathString(comps[..i + 1])| == |PathString(comps)|
    ensures i + 1 < |comps| ==> |PathString(comps[..i + 1])| < |PathString(comps)|
  {
    PathPrefix(comps, i);
    PathPrefix(comps, i + 1);
    assert comps[..i + 1][..i] == comps[..i];
    if i + 1 == |comps| { assert comps[..i + 1] == comps; }
    var path, p, q := PathString(comps), PathString(comps[..i]), PathString(comps[..i + 1]);
    assert q == p + [SLASH] + comps[i];
    assert path[..|q|] == q;
    assert path[|p| + 1..|p| + 1 + |comps[i]|] == q[|p| + 1..];
  }

  lemma {:induction false} PathLength(comps: seq<Name>)
    requires GoodNames(comps)
    ensures |PathString(comps)| >= 2 * |comps| && 0 !in PathString(comps)
    decreases |comps|
  {
    if comps != [] {
      var last := comps[|comps| - 1];
      assert GoodName(last);
      PathLength(comps[..|comps| - 1]);
    }
  }

  lemma ComponentBytes(path: seq<byte>, pos: nat, c: Name)
    requires GoodName(c) && StartsWith(path, pos, c)
    ensures forall k :: pos < k < pos + 1 + |c| ==> path[k] != SLASH && path[k] == c[k - pos - 1]
    ensures path[pos] == SLASH && path[pos + 1] != SLASH
  {
    forall k | pos < k < pos + 1 + |c|
      ensures path[k] != SLASH && path[k] == c[k - pos - 1]
    {
      assert path[k] == path[pos + 1..pos + 1 + |c|][k - pos - 1];
      assert c[k - pos - 1] in c;
    }
  }

  // ---- The components of any path

  /** The first place from `from` on that is no slash. */
  function Skip(path: seq<byte>, from: nat): (i: nat)
    requires from <= |path|
    ensures from <= i <= |path| && (i < |path| ==> path[i] != SLASH) && forall k :: from <= k < i ==> path[k] == SLASH
    decreases |path| - from
  {
    if from < |path| && path[from] == SLASH then Skip(path, from + 1) else from
  }

  /** Where the component that starts at `start` ends: at a slash, at the end, or after `room` bytes. */
  function EndFrom(path: seq<byte>, start: nat, room: nat): (e: nat)
    requires start <= |path|
    ensures start <= e <= |path| && e - start <= room && forall k :: start <= k < e ==> path[k] != SLASH
    ensures e == |path| || path[e] == SLASH || e - start == room
    ensures start < |path| && path[start] != SLASH && room > 0 ==> e > start
    decreases room
  {
    if start < |path| && path[start] != SLASH && room > 0 then EndFrom(path, start + 1, room - 1) else start
  }

  /** The components from `from` on, long ones cut into pieces of 63 bytes. */
  function Comps(path: seq<byte>, from: nat): (cs: seq<Name>)
    requires from <= |path|
    ensures forall i :: 0 <= i < |cs| ==> cs[i] != []
    decreases |path| - from
  {
    var s := Skip(path, from);
    if s == |path| then [] else
    var e := EndFrom(path, s, NAME_MAX - 1);
    [path[s..e]] + Comps(path, e)
  }

  predicate Dots(c: Name) { c == [DOT] || c == [DOT, DOT] }

  /**
   * The steps that `vfs_resolve` takes. At the end of the path the component buffer is left as it was, and used once
   * more: for a path without components that is what the buffer held, and for others the last component, if it is
   * "." or ".." or has a slash behind it.
   */
  function Taken(path: seq<byte>, stale: Name): seq<Name>
    requires path != []
  {
    var cs := Comps(path, 0);
    if cs == [] then (if stale == [] then [] else [stale])
    else if Dots(cs[|cs| - 1]) || path[|path| - 1] == SLASH then cs + [cs[|cs| - 1]]
    else cs
  }

  /** `next_comp` delivers the components one by one; -1 is NULL, for none, and then the buffer is as it was. */
  ghost predicate NextIs(path: seq<byte>, from: nat, before: Name, rest: int, comp: Name)
    requires from <= |path|
  {
    if Comps(path, from) == [] then rest == -1 && comp == before && (forall k :: from <= k < |path| ==> path[k] == SLASH) else
    && from < rest <= |path| && comp != [] && Comps(path, from) == [comp] + Comps(path, rest)
    && |comp| < NAME_MAX && rest - |comp| >= from && comp == path[rest - |comp|..rest] && path[rest - 1] != SLASH
    && (rest == |path| || path[rest] == SLASH || |comp| == NAME_MAX - 1)
  }

  lemma NextFound(path: seq<byte>, from: nat, before: Name, s: nat, e: nat)
    requires from <= |path| && s == Skip(path, from) && s < |path| && e == EndFrom(path, s, NAME_MAX - 1)
    ensures NextIs(path, from, before, e, path[s..e])
  {
    assert e - |path[s..e]| == s;
  }

  method NextComp(path: seq<byte>, from: nat, before: Name) returns (rest: int, comp: Name)
    requires from <= |path|
    ensures NextIs(path, from, before, rest, comp)
  {
    hide NextIs;
    var i: nat := from;
    while i < |path| && path[i] == SLASH
      invariant from <= i <= |path| && Skip(path, from) == Skip(path, i)
    {
      i := i + 1;
    }
    if i == |path| {
      NoneFound(path, from, before);
      return -1, before;
    }
    ghost var start := i;
    comp := [];
    while i < |path| && path[i] != SLASH && |comp| < NAME_MAX - 1
      invariant start <= i <= |path| && comp == path[start..i] && |comp| <= NAME_MAX - 1
      invariant EndFrom(path, start, NAME_MAX - 1) == EndFrom(path, i, NAME_MAX - 1 - |comp|)
    {
      comp := comp + [path[i]];
      i := i + 1;
    }
    rest := i;
    NextFound(path, from, before, start, i);
  }

  lemma NoneFound(path: seq<byte>, from: nat, before: Name)
    requires from <= |path| && Skip(path, from) == |path|
    ensures NextIs(path, from, before, -1, before)
  {}

  /** The components of a path in normal form are those it was made of. */
  lemma {:induction false} CompsOfNormal(path: seq<byte>, comps: seq<Name>, i: nat)
    requires Normal(path, comps) && i <= |comps|
    ensures |PathString(comps[..i])| <= |path| && Comps(path, |PathString(comps[..i])|) == comps[i..]
    decreases |comps| - i
  {
    hide GoodName, PathString, Comps;
    PathPrefix(comps, i);
    var from := |PathString(comps[..i])|;
    if i == |comps| {
      assert comps[..i] == comps;
      CompsAtEnd(path);
    } else {
      ComponentAt(comps, i);
      assert GoodName(comps[i]);
      CompAt(path, from, comps[i]);
      CompsOfNormal(path, comps, i + 1);
      HeadAndTail(comps, i);
    }
  }

  lemma CompsAtEnd(path: seq<byte>)
    ensures Comps(path, |path|) == []
  {}

  lemma HeadAndTail(s: seq<Name>, i: nat)
    requires i < |s|
    ensures s[i..] == [s[i]] + s[i + 1..]
  {}

  lemma CompAt(path: seq<byte>, from: nat, c: Name)
    requires GoodName(c) && StartsWith(path, from, c)
    ensures Skip(path, from) == from + 1 && EndFrom(path, from + 1, NAME_MAX - 1) == from + 1 + |c|
    ensures Comps(path, from) == [c] + Comps(path, from + 1 + |c|)
  {
    ComponentBytes(path, from, c);
  }

  /** Such a path is followed as it is. */
  lemma TakenOfNormal(path: seq<byte>, comps: seq<Name>, stale: Name)
    requires Normal(path, comps)
    ensures path != [] && path[0] == SLASH && Taken(path, stale) == comps
  {
    var last := comps[|comps| - 1];
    ComponentAt(comps, 0);
    ComponentAt(comps, |comps| - 1);
    assert comps[..0] == [];
    CompsOfNormal(path, comps, 0);
    assert comps[0..] == comps;
    assert GoodName(last);
    assert comps[..|comps|] == comps;
    ComponentBytes(path, |PathString(comps[..|comps| - 1])|, last);
  }

  /** A path that is one good name is followed from the current directory in one step. */
  lemma OneName(nodes: Nodes, from: Ptr, name: Name, stale: Name)
    requires GoodName(name) && from != NULL && NULL !in nodes
    ensures name != [] && name[0] != SLASH
    ensures Follow(nodes, from, Taken(name, stale)) ==
      var q := Lookup(nodes, from, name); if q in nodes && nodes[q].mount != NULL then nodes[q].mount else q
  {
    assert forall k :: 0 <= k < |name| ==> name[k] in name;
    assert EndFrom(name, 0, NAME_MAX - 1) == |name|;
    CompsAtEnd(name);
    assert name[0..|name|] == name;
    assert Comps(name, 0) == [name] + Comps(name, |name|) == [name];
    assert Taken(name, stale) == [name];
    FollowMore(nodes, from, [], name);
    assert [] + [name] == [name];
  }

  // ---- Splitting off the last component

  /** Where the last slash is, or -1. */
  function LastSlashOf(path: seq<byte>): (k: int)
    ensures -1 <= k < |path| && (k >= 0 ==> path[k] == SLASH) && forall i :: k < i < |path| ==> path[i] != SLASH
  {
    if path == [] then -1 else if path[|path| - 1] == SLASH then |path| - 1 else LastSlashOf(path[..|path| - 1])
  }

  /** What is behind the last slash, cut to what a name can hold. */
  function LastName(path: seq<byte>): Name {
    var name := path[LastSlashOf(path) + 1..];
    if |name| < NAME_MAX then name else name[..NAME_MAX - 1]
  }

  lemma LastSlashIs(path: seq<byte>, k: int)
    requires -1 <= k < |path| && (k >= 0 ==> path[k] == SLASH) && forall i :: k < i < |path| ==> path[i] != SLASH
    ensures LastSlashOf(path) == k
  {}

  /** In a path in normal form that is the last component. */
  lemma NormalSplits(path: seq<byte>, comps: seq<Name>, name: Name)
    requires Normal(path, comps + [name])
    ensures LastSlashOf(path) == |PathString(comps)| && path[..LastSlashOf(path)] == PathString(comps) && LastName(path) == name
    ensures GoodNames(comps) && (comps != [] ==> Normal(path[..LastSlashOf(path)], comps) && LastSlashOf(path) > 0)
  {
    var all := comps + [name];
    assert all[..|comps|] == comps && all[|comps|] == name;
    assert forall i :: 0 <= i < |comps| ==> comps[i] == all[i];
    assert path == PathString(comps) + [SLASH] + name;
    assert GoodName(all[|comps|]);
    forall i | |PathString(comps)| < i < |path|
      ensures path[i] != SLASH
    {
      assert path[i] == name[i - |PathString(comps)| - 1] && name[i - |PathString(comps)| - 1] in name;
    }
    LastSlashIs(path, |PathString(comps)|);
    assert path[LastSlashOf(path) + 1..] == name;
    PathLength(comps);
  }

  /** Everything that is mounted is there. */
  ghost predicate MountsThere(nodes: Nodes) { forall p :: p in nodes ==> nodes[p].mount == NULL || nodes[p].mount in nodes }

  lemma {:induction false} FollowInside(nodes: Nodes, root: Ptr, depth: map<Ptr, nat>, from: Ptr, comps: seq<Name>)
    requires TreeOk(nodes, root, depth) && MountsThere(nodes) && from in nodes
    ensures var p := Follow(nodes, from, comps); p == NULL || p in nodes
    decreases |comps|
  {
    if comps != [] {
      FollowInside(nodes, root, depth, from, comps[..|comps| - 1]);
      var p := Follow(nodes, from, comps[..|comps| - 1]);
      if p != NULL && p != root { assert Attached(nodes, depth, p); }
    }
  }

  /** A new node changes no walk that leads to a node. */
  lemma {:induction false} WalkGrown(nodes: Nodes, root: Ptr, depth: map<Ptr, nat>, d: Ptr, p: Ptr, name: Name, isDir: bool,
                                     from: Ptr, comps: seq<Name>)
    requires TreeOk(nodes, root, depth) && d in nodes && nodes[d].isDir && p !in nodes && p != NULL && Lookup(nodes, d, name) == NULL
    requires Walk(nodes, from, comps) in nodes
    ensures Walk(Grown(nodes, d, p, name, isDir), from, comps) == Walk(nodes, from, comps)
    decreases |comps|
  {
    hide TreeOk, FindNamed;
    if comps != [] {
      NoNullNode(nodes, root, depth);
      var e, last := Walk(nodes, from, comps[..|comps| - 1]), comps[|comps| - 1];
      WalkGrown(nodes, root, depth, d, p, name, isDir, from, comps[..|comps| - 1]);
      LookupGrown(nodes, root, depth, d, p, name, isDir, e, last);
    }
  }

  /** The new node is where its path leads, unless the path starts elsewhere. */
  lemma WalkToNew(nodes: Nodes, root: Ptr, depth: map<Ptr, nat>, d: Ptr, p: Ptr, name: Name, isDir: bool, from: Ptr, comps: seq<Name>)
    requires TreeOk(nodes, root, depth) && d in nodes && nodes[d].isDir && p !in nodes && p != NULL && Lookup(nodes, d, name) == NULL
    requires Walk(nodes, from, comps) in nodes && Walk(nodes, from, comps + [name]) == NULL
    ensures Walk(Grown(nodes, d, p, name, isDir), from, comps + [name]) == if Walk(nodes, from, comps) == d then p else NULL
  {
    hide TreeOk, FindNamed;
    NoNullNode(nodes, root, depth);
    var nodes', e := Grown(nodes, d, p, name, isDir), Walk(nodes, from, comps);
    assert (comps + [name])[..|comps|] == comps;
    WalkGrown(nodes, root, depth, d, p, name, isDir, from, comps);
    LookupGrown(nodes, root, depth, d, p, name, isDir, e, name);
  }

  lemma NoNullNode(nodes: Nodes, root: Ptr, depth: map<Ptr, nat>)
    requires TreeOk(nodes, root, depth)
    ensures NULL !in nodes && root != NULL
  {}

  /** Where the path of a new node in `d` leads then. */
  lemma MadeWhere(nodes: Nodes, root: Ptr, depth: map<Ptr, nat>, comps: seq<Name>, name: Name, d: Ptr, p: Ptr, isDir: bool)
    requires TreeOk(nodes, root, depth) && MountsThere(nodes) && d in nodes && nodes[d].isDir && p !in nodes && p != NULL
    requires Lookup(nodes, d, name) == NULL && Walk(nodes, Enter(nodes, root), comps + [name]) == NULL
    requires d == if comps == [] then root else Walk(nodes, Enter(nodes, root), comps)
    ensures var nodes' := Grown(nodes, d, p, name, isDir);
      Walk(nodes', Enter(nodes', root), comps + [name]) == if comps != [] || Enter(nodes, root) == root then p else NULL
  {
    hide FindNamed;
    WalkToNew(nodes, root, depth, d, p, name, isDir, Enter(nodes, root), comps);
  }

  // ---- The path functions

  class Namespace {
    const root: Ptr
    var nodes: Nodes
    var cwd: Ptr
    ghost var depth: map<Ptr, nat>

    ghost predicate Valid()
      reads this
    {
      TreeOk(nodes, root, depth) && cwd in nodes
    }

    /** `ramfs_init`, and the start of `vfs_init`. */
    constructor (root: Ptr)
      requires root != NULL
      ensures Valid() && this.root == root && cwd == root && nodes.Keys == {root}
    {
      this.root := root;
      nodes := map[root := TNode([SLASH], true, root, NULL, [])];
      cwd := root;
      depth := map[root := 0];
    }

    method FindChild(d: Ptr, name: Name) returns (p: Ptr)
      ensures p == Lookup(nodes, d, name)
    {
      if d !in nodes || !nodes[d].isDir { return NULL; }
      var cs := nodes[d].children;
      for i := 0 to |cs|
        invariant FindNamed(nodes, cs, name) == FindNamed(nodes, cs[i..], name)
      {
        if cs[i] != NULL && cs[i] in nodes && nodes[cs[i]].name == name { return cs[i]; }
        assert cs[i..][1..] == cs[i + 1..];
      }
      p := NULL;
    }

    /** Where a path starts: at the root or at the current directory, or at what is mounted there. */
    function Start(path: seq<byte>): Ptr
      requires path != []
      reads this
    {
      Enter(nodes, if path[0] == SLASH then root else cwd)
    }

    /** Where a path leads: from its start one step after the other. */
    function Target(path: seq<byte>, stale: Name): Ptr
      reads this
    {
      if path == [] then cwd else Follow(nodes, Start(path), Taken(path, stale))
    }

    /**
     * `vfs_resolve`. `stale` is what the component buffer holds before the first component is copied. An absolute path
     * in normal form leads where looking up its components `comps` leads, and a mere name to the child of the current
     * directory; if something is mounted on either, what is mounted takes its place.
     */
    method Resolve(path: seq<byte>, stale: Name, ghost comps: seq<Name>) returns (p: Ptr)
      requires Valid()
      ensures p == Target(path, stale)
      ensures Normal(path, comps) ==> p == Walk(nodes, Enter(nodes, root), comps)
      ensures GoodName(path) ==>
        var from := if nodes[cwd].mount == NULL then cwd else nodes[cwd].mount;
        var child := Lookup(nodes, from, path);
        p == if child in nodes && nodes[child].mount != NULL then nodes[child].mount else child
    {
      hide TreeOk, Lookup, Normal, Comps, Follow, Taken, GoodNames, Walk, PathString, GoodName;
      NoNullNode(nodes, root, depth);
      if GoodName(path) { OneName(nodes, Enter(nodes, cwd), path, stale); }
      if Normal(path, comps) {
        TakenOfNormal(path, comps, stale);
        NormalIsGood(path, comps);
        FollowIsWalk(nodes, Enter(nodes, root), comps);
      }
      if path == [] { return cwd; }
      NoNullNode(nodes, root, depth);
      var cur: Ptr := Start(path);
      var comp, rest: nat := stale, 0;
      ghost var from, done: seq<Name> := Start(path), [];
      ResolveStarts(nodes, from, path, stale);
      while true
        invariant Resolving(nodes, from, path, stale, done, rest, comp, cur)
        decreases |path| - rest
      {
        ghost var before := comp;
        var next: int;
        next, comp := NextComp(path, rest, comp);
        if comp == [] {
          ResolvesToStart(nodes, from, path, stale, done, rest, before, cur, next);
          break;
        }
        ResolveStep(nodes, from, path, stale, done, rest, before, cur, next, comp);
        done := done + [comp];
        if comp == [DOT] {
          if next == -1 { break; }
          rest := next;
          continue;
        }
        if comp == [DOT, DOT] {
          if cur in nodes && nodes[cur].parent != NULL && nodes[cur].parent != cur { cur := nodes[cur].parent; }
          if next == -1 { break; }
          rest := next;
          continue;
        }
        var child := FindChild(cur, comp);
        if child == NULL { return NULL; }
        cur := Enter(nodes, child);
        if next == -1 || next == |path| { break; }
        rest := next;
      }
      p := cur;
    }

    /**
     * The directory that `resolve_parent` finds: where the part before the last component leads, or the root or the
     * current directory itself, without what is mounted there.
     */
    function ParentOf(path: seq<byte>, stale: Name): Ptr
      reads this
    {
      var k := LastSlashOf(path);
      if k < 0 then cwd else if k == 0 then root else Target(path[..k], stale)
    }

    method ResolveParent(path: seq<byte>, stale: Name) returns (p: Ptr, name: Name)
      requires Valid() && |path| < PATH_MAX
      ensures p == ParentOf(path, stale) && name == LastName(path)
    {
      hide TreeOk, Follow, Taken;
      var slash: int := |path| - 1;
      while slash >= 0 && path[slash] != SLASH
        invariant -1 <= slash < |path| && forall i :: slash < i < |path| ==> path[i] != SLASH
      {
        slash := slash - 1;
      }
      LastSlashIs(path, slash);
      name := path[slash + 1..];
      if |name| >= NAME_MAX { name := name[..NAME_MAX - 1]; }
      if slash < 0 {
        p := cwd;
      } else if slash == 0 {
        p := root;
      } else {
        p := Resolve(path[..slash], stale, []);
      }
    }

    /**
     * `vfs_mkdir`; `stale` and `stale2` are what the component buffer holds in the two walks, and `handle` is the memory
     * for the new node. An absolute path in normal form, of `comps` and a name, leads to the directory made, except that
     * one made in the root lies under whatever is mounted there.
     */
    method Mkdir(path: seq<byte>, stale: Name, stale2: Name, handle: Ptr, ghost comps: seq<Name>) returns (n: int)
      requires Valid() && MountsThere(nodes) && |path| < PATH_MAX && GoodName(LastName(path)) && handle !in nodes
      modifies `nodes, `depth
      ensures Valid()
      ensures var d := old(ParentOf(path, stale2));
        n == if old(Target(path, stale)) != NULL then ERR_EXIST
             else if d == NULL then ERR_NOENT
             else if d !in old(nodes) || !old(nodes)[d].isDir then ERR_NOTDIR
             else if |old(nodes)[d].children| >= MAX_CHILDREN || old(Lookup(nodes, d, LastName(path))) != NULL || handle == NULL then ERR_NOSPACE
             else 0
      ensures n != 0 ==> nodes == old(nodes)
      ensures n == 0 ==>
        old(ParentOf(path, stale2)) in old(nodes) && nodes == Grown(old(nodes), old(ParentOf(path, stale2)), handle, LastName(path), true)
      ensures n == 0 && Normal(path, comps + [LastName(path)]) ==>
        Walk(nodes, Enter(nodes, root), comps + [LastName(path)]) ==
          if comps != [] || old(Enter(nodes, root)) == root then handle else NULL
    {
      hide TreeOk, Follow, Taken, Normal, Lookup, Walk, MountsThere, GoodName, LastSlashOf, LastName, Grown, Enter;
      var found := Resolve(path, stale, comps + [LastName(path)]);
      if found != NULL { return ERR_EXIST; }
      var d, name := ResolveParent(path, stale2);
      if d == NULL { return ERR_NOENT; }
      ParentInside(path, stale2);
      if !nodes[d].isDir { return ERR_NOTDIR; }
      if Normal(path, comps + [name]) { ParentOfNormal(path, comps, name, stale2); }
      var p := Create(d, name, true, handle);
      if p == NULL { return ERR_NOSPACE; }
      n := 0;
      if Normal(path, comps + [name]) { MadeWhere(old(nodes), root, old(depth), comps, name, d, p, true); }
    }

    lemma ParentOfNormal(path: seq<byte>, comps: seq<Name>, name: Name, stale: Name)
      requires Valid() && Normal(path, comps + [name])
      ensures ParentOf(path, stale) == if comps == [] then root else Walk(nodes, Enter(nodes, root), comps)
    {
      hide TreeOk, Follow, Taken, Normal, Walk, PathString;
      NormalSplits(path, comps, name);
      var front := path[..LastSlashOf(path)];
      if comps == [] {
        EmptyPath();
      } else {
        TakenOfNormal(front, comps, stale);
        FollowIsWalk(nodes, Enter(nodes, root), comps);
      }
    }

    lemma ParentInside(path: seq<byte>, stale: Name)
      requires Valid() && MountsThere(nodes)
      ensures ParentOf(path, stale) == NULL || ParentOf(path, stale) in nodes
    {
      NoNullNode(nodes, root, depth);
      var k := LastSlashOf(path);
      if k > 0 { FollowInside(nodes, root, depth, Start(path[..k]), Taken(path[..k], stale)); }
    }

    /** `vfs_chdir`, given what its path resolves to. */
    method Chdir(p: Ptr) returns (n: int)
      requires Valid() && (p == NULL || p in nodes)
      modifies `cwd
      ensures Valid()
      ensures n == if p == NULL then ERR_NOENT else if !nodes[p].isDir then ERR_NOTDIR else 0
      ensures cwd == if n == 0 then p else old(cwd)
    {
      if p == NULL { return ERR_NOENT; }
      if !nodes[p].isDir { return ERR_NOTDIR; }
      cwd := p;
      n := 0;
    }

    /**
     * `ramfs_create`; `handle` is the memory for the new node, or NULL when there is none. Afterwards the
     * name leads to the new node, and every other lookup gives what it gave.
     */
    method Create(d: Ptr, name: Name, isDir: bool, handle: Ptr) returns (p: Ptr)
      requires Valid() && d in nodes && GoodName(name) && handle !in nodes
      modifies `nodes, `depth
      ensures Valid()
      ensures p == if !old(nodes)[d].isDir || |old(nodes)[d].children| >= MAX_CHILDREN || old(Lookup(nodes, d, name)) != NULL
                   then NULL else handle
      ensures p == NULL ==> nodes == old(nodes)
      ensures p != NULL ==> nodes == Grown(old(nodes), d, p, name, isDir)
      ensures p != NULL ==> d != p && nodes[p] == TNode(name, isDir, d, NULL, []) && nodes[d].children == old(nodes)[d].children + [p]
    {
      hide TreeOk, Lookup;
      if !nodes[d].isDir { return NULL; }
      if |nodes[d].children| >= MAX_CHILDREN { return NULL; }
      var twin := FindChild(d, name);
      if twin != NULL { return NULL; }
      if handle == NULL { return NULL; }
      GrownOk(nodes, root, depth, d, handle, name, isDir);
      depth := depth[handle := depth[d] + 1];
      nodes := Grown(nodes, d, handle, name, isDir);
      p := handle;
    }

    /** `ramfs_unlink`, of a node that is neither the root nor the current directory. */
    method Unlink(p: Ptr) returns (n: int)
      requires Valid() && p in nodes && p != root && p != cwd
      modifies `nodes
      ensures Valid()
      ensures n == if old(nodes)[p].isDir && old(nodes)[p].children != [] then ERR_NOEMPTY else 0
      ensures n != 0 ==> nodes == old(nodes)
      ensures n == 0 ==> old(nodes)[p].parent in old(nodes) && nodes == Pruned(old(nodes), old(nodes)[p].parent, p)
    {
      if nodes[p].isDir && nodes[p].children != [] { return ERR_NOEMPTY; }
      assert GoodChildren(nodes, p);
      PrunedOk(nodes, root, depth, p);
      var d := nodes[p].parent;
      var cs := nodes[d].children;
      var i: nat := 0;
      while i < |cs| && cs[i] != p
        invariant i <= |cs| && p !in cs[..i]
      {
        i := i + 1;
      }
      LeftAfter(cs, i, p);
      nodes := nodes[d := nodes[d].(children := cs[..i] + cs[i + 1..])] - {p};
      n := 0;
    }

    /** Copies one part of the path behind a slash, as far as the buffer has room. */
    method CopyPart(buf: array<byte>, pos: nat, max: nat, name: Name) returns (pos': nat)
      requires pos + 2 < max <= buf.Length
      modifies buf
      ensures pos < pos' < max
      ensures forall k :: 0 <= k < pos ==> buf[k] == old(buf[k])
      ensures 0 !in name ==>
        && pos' == Min(pos + 1 + |name|, max - 1) && buf[pos] == SLASH && buf[pos + 1..pos'] == name[..pos' - pos - 1]
    {
      buf[pos] := SLASH;
      pos' := pos + 1;
      var i: nat := 0;
      while i < |name| && name[i] != 0 && pos' < max - 1
        invariant i <= |name| && pos' == pos + 1 + i < max
        invariant buf[pos] == SLASH && (forall k :: 0 <= k < pos ==> buf[k] == old(buf[k]))
        invariant forall k :: 0 <= k < i ==> buf[pos + 1 + k] == name[k]
      {
        buf[pos'] := name[i];
        i, pos' := i + 1, pos' + 1;
      }
      assert i < |name| ==> name[i] in name;
    }

    /** The names from the current directory up, at most 16 of them: the last ones on its path. */
    method PartsUp() returns (parts: seq<Name>)
      requires Valid()
      ensures Backwards(parts, LastOf(NamesTo(nodes, root, depth, cwd)))
    {
      parts := [];
      var cur: Ptr := cwd;
      ghost var names, above := NamesTo(nodes, root, depth, cwd), NamesTo(nodes, root, depth, cwd);
      while cur != root && |parts| < MAX_DEPTH
        invariant cur in nodes && |parts| <= MAX_DEPTH
        invariant above == NamesTo(nodes, root, depth, cur) && Climbing(names, above, parts)
        decreases MAX_DEPTH - |parts|
      {
        assert Attached(nodes, depth, cur);
        var name, parent := nodes[cur].name, nodes[cur].parent;
        above := NamesTo(nodes, root, depth, parent);
        OneUp(names, above, name, parts);
        parts, cur := parts + [name], parent;
      }
      if cur != root { assert Attached(nodes, depth, cur); }
      assert names[|above|..] == LastOf(names);
    }

    /**
     * `vfs_getcwd`: the last 16 names on the path of the current directory, as far as they fit the buffer, without a slash
     * at the end.
     */
    method GetCwd(buf: array<byte>, max: nat)
      requires Valid() && 2 <= max <= buf.Length
      modifies buf
      ensures cwd == root ==> CStr(buf[..]) == [SLASH]
      ensures cwd != root ==>
        var path := PathString(LastOf(NamesTo(nodes, root, depth, cwd)));
        CStr(buf[..]) == if Kept(path, max) == 0 then [SLASH] else path[..Kept(path, max)]
    {
      if cwd == root {
        buf[0], buf[1] := SLASH, 0;
        CStrIs(buf[..], 1);
        return;
      }
      NamesAreGood(nodes, root, depth, cwd);
      var parts := PartsUp();
      Spell(buf, max, parts, LastOf(NamesTo(nodes, root, depth, cwd)));
    }

    /** Resolving what `vfs_getcwd` spells leads back to the current directory. */
    method CwdRoundTrip(buf: array<byte>, max: nat, stale: Name) returns (p: Ptr)
      requires Valid() && 2 <= max <= buf.Length
      modifies buf
      ensures var names := NamesTo(nodes, root, depth, cwd);
        cwd != root && |names| <= MAX_DEPTH && |PathString(names)| < max && NoMounts(nodes, root, depth, cwd) ==> p == cwd
    {
      GetCwd(buf, max);
      ghost var names := NamesTo(nodes, root, depth, cwd);
      if NoMounts(nodes, root, depth, cwd) {
        WalkBack(nodes, root, depth, cwd);
        RootNotMounted(nodes, root, depth, cwd);
      }
      p := Resolve(CStr(buf[..]), stale, names);
    }

    /** The loop that writes the parts, last one first, and ends the string. */
    method Spell(buf: array<byte>, max: nat, parts: seq<Name>, ghost names: seq<Name>)
      requires 2 <= max <= buf.Length && names != [] && Backwards(parts, names) && GoodNames(names)
      modifies buf
      ensures var path := PathString(names); CStr(buf[..]) == if Kept(path, max) == 0 then [SLASH] else path[..Kept(path, max)]
    {
      hide PathString, GoodNames, Kept;
      var pos, d: nat := 0, |parts|;
      NothingSpelled(buf[..], names, max);
      while d > 0 && pos + 2 < max
        invariant d <= |parts| && pos < max
        invariant Spelled(buf[..], pos, names, |parts| - d, max)
        decreases d
      {
        d := d - 1;
        PartFits(names, |parts| - d - 1);
        ghost var before := buf[..];
        var pos' := CopyPart(buf, pos, max, parts[d]);
        SpelledMore(before, buf[..], pos, names, |parts| - d - 1, pos', max);
        pos := pos';
      }
      WholePath(buf[..], pos, names, |parts| - d, max);
      buf[pos] := 0;
      if pos == 0 {
        buf[0], buf[1] := SLASH, 0;
        CStrIs(buf[..], 1);
      }
    }
  }

  /** The last names of a path, which is all that `vfs_getcwd` looks at. */
  function LastOf(names: seq<Name>): seq<Name> { if |names| > MAX_DEPTH then names[|names| - MAX_DEPTH..] else names }

  /** How much of a path a buffer of `max` bytes gets. */
  function Kept(path: seq<byte>, max: nat): (n: nat)
    requires max >= 2
    ensures n <= |path| && n < max
  {
    if |path| < max then |path| else if path[max - 2] == SLASH then max - 2 else max - 1
  }

  /** The buffer spells the first `k` names, or, if it is full, a part of them that ends within the last. */
  ghost predicate Spelled(buf: seq<byte>, pos: nat, names: seq<Name>, k: nat, max: nat) {
    && k <= |names| && pos <= |PathString(names)| && pos <= |buf| && buf[..pos] == PathString(names)[..pos]
    && (pos == |PathString(names[..k])| || (pos == max - 1 && CutWithin(names, k, max)))
  }

  ghost predicate CutWithin(names: seq<Name>, k: nat, max: nat) {
    0 < k <= |names| && |PathString(names[..k - 1])| + 2 < max <= |PathString(names[..k])|
  }

  lemma NothingSpelled(buf: seq<byte>, names: seq<Name>, max: nat)
    ensures Spelled(buf, 0, names, 0, max)
  {
    assert names[..0] == [];
  }

  lemma SpelledMore(before: seq<byte>, buf: seq<byte>, pos: nat, names: seq<Name>, k: nat, pos': nat, max: nat)
    requires Spelled(before, pos, names, k, max) && k < |names| && |buf| == |before| && GoodNames(names) && pos + 2 < max <= |buf|
    requires pos' == Min(pos + 1 + |names[k]|, max - 1) && (forall i :: 0 <= i < pos ==> buf[i] == before[i])
    requires buf[pos] == SLASH && buf[pos + 1..pos'] == names[k][..pos' - pos - 1]
    ensures Spelled(buf, pos', names, k + 1, max)
  {
    hide PathString, GoodNames;
    PathPrefix(names, k + 1);
    PartFits(names, k);
    var path, part := PathString(names), PathString(names[..k + 1]);
    assert part[..pos'] == PathString(names[..k]) + [SLASH] + names[k][..pos' - pos - 1];
    assert path[..pos'] == path[..|part|][..pos'];
    assert buf[..pos] == before[..pos];
    assert buf[..pos'] == buf[..pos] + [SLASH] + names[k][..pos' - pos - 1];
    assert names[..k + 1][..k] == names[..k];
  }

  /** Within a component there is no slash. */
  lemma NoSlashWithin(names: seq<Name>, k: nat, i: nat)
    requires k < |names| && GoodNames(names) && |PathString(names[..k])| < i < |PathString(names[..k + 1])|
    ensures i < |PathString(names)| && PathString(names)[i] != SLASH
  {
    ComponentAt(names, k);
    PathPrefix(names, k + 1);
    assert GoodName(names[k]);
    ComponentBytes(PathString(names), |PathString(names[..k])|, names[k]);
  }

  /** The loop over the parts stops at the last name or when the buffer has no room for another one. */
  lemma StopsAt(names: seq<Name>, pos: nat, k: nat, max: nat)
    requires max >= 2 && names != [] && GoodNames(names) && k <= |names| && (k == |names| || pos + 2 >= max) && pos < max
    requires pos == |PathString(names[..k])| || (pos == max - 1 && CutWithin(names, k, max))
    ensures pos == Kept(PathString(names), max)
  {
    hide PathString, GoodNames;
    if pos != |PathString(names[..k])| {
      PathPrefix(names, k);
      NoSlashWithin(names, k - 1, max - 2);
    } else if k == |names| {
      assert names[..k] == names;
    } else {
      PartFitsMore(names, k);
      PathPrefix(names, k);
      if pos == max - 1 {
        if k == 0 {
          assert names[..0] == [];
          EmptyPath();
        } else {
          PartFits(names, k - 1);
          NoSlashWithin(names, k - 1, max - 2);
        }
      }
    }
  }

  lemma EmptyPath()
    ensures PathString([]) == []
  {}

  lemma WholePath(buf: seq<byte>, pos: nat, names: seq<Name>, k: nat, max: nat)
    requires max >= 2 && names != [] && GoodNames(names) && k <= |names| && (k == |names| || pos + 2 >= max) && pos < max
    requires pos < |buf| && Spelled(buf, pos, names, k, max)
    ensures pos == Kept(PathString(names), max) && CStr(buf[pos := 0]) == PathString(names)[..pos]
  {
    hide PathString, GoodNames, Kept;
    StopsAt(names, pos, k, max);
    PathLength(names);
    assert buf[pos := 0][..pos] == buf[..pos];
    CStrIs(buf[pos := 0], pos);
  }

  lemma {:induction false} RootNotMounted(nodes: Nodes, root: Ptr, depth: map<Ptr, nat>, p: Ptr)
    requires TreeOk(nodes, root, depth) && p in nodes && NoMounts(nodes, root, depth, p)
    ensures Enter(nodes, root) == root
    decreases depth[p]
  {
    if p != root {
      assert Attached(nodes, depth, p);
      RootNotMounted(nodes, root, depth, nodes[p].parent);
    }
  }

  // ---- Adding and taking away a node

  function Grown(nodes: Nodes, d: Ptr, p: Ptr, name: Name, isDir: bool): Nodes
    requires d in nodes
  {
    nodes[p := TNode(name, isDir, d, NULL, [])][d := nodes[d].(children := nodes[d].children + [p])]
  }

  lemma {:induction false} FindInMore(nodes: Nodes, nodes': Nodes, cs: seq<Ptr>, p: Ptr, name: Name)
    requires p in nodes' && p != NULL && p !in cs
    requires forall q :: q in cs ==> (q in nodes' <==> q in nodes) && (q in nodes ==> nodes'[q].name == nodes[q].name)
    ensures FindNamed(nodes', cs + [p], name) ==
      if FindNamed(nodes, cs, name) != NULL then FindNamed(nodes, cs, name) else if nodes'[p].name == name then p else NULL
  {
    if cs == [] {
      assert cs + [p] == [p] && [p][1..] == [];
    } else {
      assert (cs + [p])[1..] == cs[1..] + [p];
      FindInMore(nodes, nodes', cs[1..], p, name);
    }
  }

  /** After a creation its name leads to the new node, and all other names lead where they led. */
  lemma LookupGrown(nodes: Nodes, root: Ptr, depth: map<Ptr, nat>, d: Ptr, p: Ptr, name: Name, isDir: bool, e: Ptr, other: Name)
    requires TreeOk(nodes, root, depth) && d in nodes && nodes[d].isDir && p !in nodes && p != NULL && e in nodes
    requires Lookup(nodes, d, name) == NULL
    ensures Lookup(Grown(nodes, d, p, name, isDir), e, other) == if e == d && other == name then p else Lookup(nodes, e, other)
  {
    var nodes' := Grown(nodes, d, p, name, isDir);
    assert GoodChildren(nodes, e);
    if e == d {
      FindInMore(nodes, nodes', nodes[d].children, p, other);
    } else {
      FindSame(nodes, nodes', nodes[e].children, other);
    }
  }

  lemma {:induction false} FindSame(nodes: Nodes, nodes': Nodes, cs: seq<Ptr>, name: Name)
    requires forall q :: q in cs ==> (q in nodes' <==> q in nodes) && (q in nodes ==> nodes'[q].name == nodes[q].name)
    ensures FindNamed(nodes', cs, name) == FindNamed(nodes, cs, name)
  {
    if cs != [] { FindSame(nodes, nodes', cs[1..], name); }
  }

  lemma {:induction false} NotFound(nodes: Nodes, cs: seq<Ptr>, name: Name)
    requires FindNamed(nodes, cs, name) == NULL && forall q :: q in cs ==> q != NULL && q in nodes
    ensures forall q :: q in cs ==> nodes[q].name != name
  {
    if cs != [] { NotFound(nodes, cs[1..], name); }
  }

  lemma GrownChildren(nodes: Nodes, d: Ptr, p: Ptr, name: Name, isDir: bool, q: Ptr)
    requires d in nodes && nodes[d].isDir && p !in nodes && p != NULL && GoodName(name)
    requires GoodChildren(nodes, d) && forall x :: x in nodes[d].children ==> nodes[x].name != name
    requires q == p || (q in nodes && GoodChildren(nodes, q))
    ensures GoodChildren(Grown(nodes, d, p, name, isDir), q)
  {}

  lemma GrownAttached(nodes: Nodes, depth: map<Ptr, nat>, d: Ptr, p: Ptr, name: Name, isDir: bool, q: Ptr)
    requires d in nodes && p !in nodes && d in depth && (q == p || (q in nodes && Attached(nodes, depth, q)))
    ensures Attached(Grown(nodes, d, p, name, isDir), depth[p := depth[d] + 1], q)
  {
    assert (nodes[d].children + [p])[|nodes[d].children|] == p;
  }

  lemma GrownOk(nodes: Nodes, root: Ptr, depth: map<Ptr, nat>, d: Ptr, p: Ptr, name: Name, isDir: bool)
    requires TreeOk(nodes, root, depth) && d in nodes && nodes[d].isDir && p !in nodes && p != NULL && GoodName(name)
    requires Lookup(nodes, d, name) == NULL
    ensures d in depth && TreeOk(Grown(nodes, d, p, name, isDir), root, depth[p := depth[d] + 1])
  {
    assert GoodChildren(nodes, d);
    NotFound(nodes, nodes[d].children, name);
    hide GoodChildren, Attached;
    forall q | q in Grown(nodes, d, p, name, isDir)
      ensures GoodChildren(Grown(nodes, d, p, name, isDir), q)
      ensures q != root ==> Attached(Grown(nodes, d, p, name, isDir), depth[p := depth[d] + 1], q)
    {
      if q != p {
        assert GoodChildren(nodes, q);
        if q != root { assert Attached(nodes, depth, q); }
      }
      GrownChildren(nodes, d, p, name, isDir, q);
      if q != root { GrownAttached(nodes, depth, d, p, name, isDir, q); }
    }
  }

  function Left(cs: seq<Ptr>, p: Ptr): (r: seq<Ptr>)
    ensures forall q :: q in r ==> q in cs
    ensures forall q :: q in cs && q != p ==> q in r
  {
    if cs == [] then [] else if cs[0] == p then cs[1..] else [cs[0]] + Left(cs[1..], p)
  }

  /** The nodes without `p`, a child of `d`. */
  function Pruned(nodes: Nodes, d: Ptr, p: Ptr): Nodes
    requires d in nodes
  {
    nodes[d := nodes[d].(children := Left(nodes[d].children, p))] - {p}
  }

  lemma {:induction false} LeftAfter(cs: seq<Ptr>, i: nat, p: Ptr)
    requires i <= |cs| && p !in cs[..i] && (i < |cs| ==> cs[i] == p) && p in cs
    ensures i < |cs| && Left(cs, p) == cs[..i] + cs[i + 1..]
  {
    if i > 0 {
      assert cs[0] in cs[..i] && cs[1..][..i - 1] == cs[..i][1..];
      LeftAfter(cs[1..], i - 1, p);
      assert cs[..i] + cs[i + 1..] == [cs[0]] + (cs[1..][..i - 1] + cs[1..][i..]);
    }
  }

  lemma UniqueCons(nodes: Nodes, q: Ptr, cs: seq<Ptr>, ds: seq<Ptr>)
    requires UniqueNames(nodes, [q] + cs) && UniqueNames(nodes, ds) && forall x :: x in ds ==> x in cs
    ensures UniqueNames(nodes, [q] + ds)
  {
    forall j | 0 <= j < |ds| && q in nodes && ds[j] in nodes
      ensures nodes[q].name != nodes[ds[j]].name
    {
      assert ds[j] in ds;
      var i :| 0 <= i < |cs| && cs[i] == ds[j];
      assert ([q] + cs)[0] == q && ([q] + cs)[i + 1] == ds[j];
    }
  }

  lemma {:induction false} LeftUnique(nodes: Nodes, cs: seq<Ptr>, p: Ptr)
    requires UniqueNames(nodes, cs) && p in nodes
    ensures UniqueNames(nodes, Left(cs, p)) && p !in Left(cs, p)
  {
    if cs != [] {
      assert UniqueNames(nodes, cs[1..]) && cs == [cs[0]] + cs[1..];
      LeftUnique(nodes, cs[1..], p);
      if cs[0] != p { UniqueCons(nodes, cs[0], cs[1..], Left(cs[1..], p)); }
    }
  }

  lemma PrunedChildren(nodes: Nodes, d: Ptr, p: Ptr, q: Ptr)
    requires d in nodes && p in nodes && nodes[p].parent == d && q in nodes && q != p && GoodChildren(nodes, q) && GoodChildren(nodes, d)
    ensures GoodChildren(Pruned(nodes, d, p), q)
  {
    LeftUnique(nodes, nodes[d].children, p);
  }

  lemma PrunedAttached(nodes: Nodes, depth: map<Ptr, nat>, d: Ptr, p: Ptr, q: Ptr)
    requires d in nodes && p in nodes && q in nodes && q != p && Attached(nodes, depth, q) && nodes[p].children == []
    ensures Attached(Pruned(nodes, d, p), depth, q)
  {}

  lemma PrunedOk(nodes: Nodes, root: Ptr, depth: map<Ptr, nat>, p: Ptr)
    requires TreeOk(nodes, root, depth) && p in nodes && p != root && nodes[p].children == []
    ensures nodes[p].parent in nodes && p in nodes[nodes[p].parent].children
    ensures TreeOk(Pruned(nodes, nodes[p].parent, p), root, depth)
  {
    var d := nodes[p].parent;
    assert Attached(nodes, depth, p) && GoodChildren(nodes, d);
    hide GoodChildren, Attached;
    forall q | q in Pruned(nodes, d, p)
      ensures GoodChildren(Pruned(nodes, d, p), q)
      ensures q != root ==> Attached(Pruned(nodes, d, p), depth, q)
    {
      assert GoodChildren(nodes, q);
      if q != root { assert Attached(nodes, depth, q); }
      PrunedChildren(nodes, d, p, q);
      if q != root { PrunedAttached(nodes, depth, d, p, q); }
    }
  }

  lemma {:induction false} NoneNamed(nodes: Nodes, cs: seq<Ptr>, name: Name)
    requires forall q :: q in cs && q in nodes ==> nodes[q].name != name
    ensures FindNamed(nodes, cs, name) == NULL
  {
    if cs != [] { NoneNamed(nodes, cs[1..], name); }
  }

  lemma FirstIsUnique(nodes: Nodes, cs: seq<Ptr>)
    requires cs != [] && UniqueNames(nodes, cs) && cs[0] in nodes
    ensures UniqueNames(nodes, cs[1..]) && forall q :: q in cs[1..] && q in nodes ==> nodes[q].name != nodes[cs[0]].name
  {
    forall q | q in cs[1..] && q in nodes
      ensures nodes[q].name != nodes[cs[0]].name
    {
      var i :| 0 <= i < |cs[1..]| && cs[1..][i] == q;
      assert cs[i + 1] == q;
    }
  }

  lemma {:induction false} FindInLeft(nodes: Nodes, nodes': Nodes, cs: seq<Ptr>, p: Ptr, name: Name)
    requires p in cs && UniqueNames(nodes, cs) && forall q :: q in cs ==> q != NULL && q in nodes
    requires forall q :: q in cs && q != p ==> q in nodes' && nodes'[q].name == nodes[q].name
    ensures FindNamed(nodes', Left(cs, p), name) == if name == nodes[p].name then NULL else FindNamed(nodes, cs, name)
  {
    FirstIsUnique(nodes, cs);
    if cs[0] == p {
      FindSame(nodes, nodes', cs[1..], name);
      if name == nodes[p].name { NoneNamed(nodes, cs[1..], name); }
    } else {
      FindInLeft(nodes, nodes', cs[1..], p, name);
    }
  }

  /** After a removal its name leads nowhere, and all other names lead where they led. */
  lemma LookupPruned(nodes: Nodes, root: Ptr, depth: map<Ptr, nat>, p: Ptr, e: Ptr, other: Name)
    requires TreeOk(nodes, root, depth) && p in nodes && p != root && nodes[p].children == [] && e in nodes && e != p
    ensures nodes[p].parent in nodes
    ensures var d := nodes[p].parent;
      Lookup(Pruned(nodes, d, p), e, other) == if e == d && other == nodes[p].name then NULL else Lookup(nodes, e, other)
  {
    PrunedOk(nodes, root, depth, p);
    var d := nodes[p].parent;
    var nodes' := Pruned(nodes, d, p);
    assert GoodChildren(nodes, e) && GoodChildren(nodes, d);
    if e == d {
      FindInLeft(nodes, nodes', nodes[d].children, p, other);
    } else {
      FindSame(nodes, nodes', nodes[e].children, other);
    }
  }

  /** `parts` lists `names` from the last to the first. */
  ghost predicate Backwards(parts: seq<Name>, names: seq<Name>) {
    |parts| == |names| && forall k :: 0 <= k < |parts| ==> parts[k] == names[|names| - 1 - k]
  }

  /** `parts` lists what of `names` comes after `above`, from the last to the first. */
  ghost predicate Climbing(names: seq<Name>, above: seq<Name>, parts: seq<Name>) {
    |above| + |parts| == |names| && names[..|above|] == above && Backwards(parts, names[|above|..])
  }

  lemma OneUp(names: seq<Name>, above: seq<Name>, name: Name, parts: seq<Name>)
    requires Climbing(names, above + [name], parts)
    ensures Climbing(names, above, parts + [name])
  {
    var was := above + [name];
    assert names[..|above|] == was[..|above|] == above && names[|above|] == was[|above|];
    assert names[|above|..] == [name] + names[|was|..];
  }

  lemma {:induction false} NamesAreGood(nodes: Nodes, root: Ptr, depth: map<Ptr, nat>, p: Ptr)
    requires TreeOk(nodes, root, depth) && p in nodes
    ensures GoodNames(NamesTo(nodes, root, depth, p))
    decreases depth[p]
  {
    if p != root {
      assert Attached(nodes, depth, p);
      NamesAreGood(nodes, root, depth, nodes[p].parent);
      LookupOwnName(nodes, root, depth, p);
    }
  }

  /** The next part lies within the whole path. */
  lemma PartFits(names: seq<Name>, k: nat)
    requires k < |names| && GoodNames(names)
    ensures PathString(names[..k + 1]) == PathString(names[..k]) + [SLASH] + names[k]
    ensures |PathString(names[..k])| + 1 + |names[k]| <= |PathString(names)| && 0 !in names[k] && |names[k]| > 0
  {
    assert names[..k + 1][..k] == names[..k];
    PathPrefix(names, k + 1);
    assert GoodName(names[k]);
  }

  /** While parts are left there is room for one more. */
  lemma PartFitsMore(names: seq<Name>, k: nat)
    requires k <= |names| && GoodNames(names)
    ensures k < |names| ==> |PathString(names[..k])| + 2 <= |PathString(names)|
  {
    if k < |names| { PartFits(names, k); }
  }

  ghost predicate Normal(path: seq<byte>, comps: seq<Name>) {
    comps != [] && GoodNames(comps) && path == PathString(comps)
  }

  /** Resolving has come to component `i`, which stands at `rest`; `cur` is where those before it lead. */
  lemma NormalIsGood(path: seq<byte>, comps: seq<Name>)
    requires Normal(path, comps)
    ensures GoodNames(comps) && path != []
  {
    PathLength(comps);
  }

  // ---- Resolving, step by step

  /** The loop of `vfs_resolve` has taken the steps `done`, and stands at `rest` of the path. */
  ghost predicate Resolving(nodes: Nodes, from: Ptr, path: seq<byte>, stale: Name, done: seq<Name>, rest: nat, comp: Name, cur: Ptr) {
    && path != [] && rest <= |path| && Comps(path, 0) == done + Comps(path, rest)
    && cur == Follow(nodes, from, done) && cur != NULL
    && comp == (if done == [] then stale else done[|done| - 1])
    && (done != [] ==> Dots(comp) || rest < |path|)
    && (done != [] && rest < |path| && !Dots(comp) ==> path[rest] == SLASH || |comp| == NAME_MAX - 1)
  }

  lemma ResolveStarts(nodes: Nodes, from: Ptr, path: seq<byte>, stale: Name)
    requires path != [] && from != NULL
    ensures Resolving(nodes, from, path, stale, [], 0, stale, from)
  {}

  /** The end of the path is reached with an empty buffer. */
  lemma ResolvesToStart(nodes: Nodes, from: Ptr, path: seq<byte>, stale: Name, done: seq<Name>, rest: nat, comp: Name, cur: Ptr, next: int)
    requires Resolving(nodes, from, path, stale, done, rest, comp, cur) && NextIs(path, rest, comp, next, [])
    ensures cur == Follow(nodes, from, Taken(path, stale))
  {
    hide Follow;
    assert Comps(path, rest) == [] && comp == [];
    assert done == Comps(path, 0);
  }

  /** One turn of the loop. */
  lemma ResolveStep(nodes: Nodes, from: Ptr, path: seq<byte>, stale: Name, done: seq<Name>, rest: nat, before: Name, cur: Ptr,
                    next: int, comp: Name)
    requires Resolving(nodes, from, path, stale, done, rest, before, cur) && NextIs(path, rest, before, next, comp) && comp != []
    ensures var cur' := Step(nodes, cur, comp);
      && cur' == Follow(nodes, from, done + [comp])
      && (cur' == NULL || next == -1 || (next == |path| && !Dots(comp)) ==> cur' == Follow(nodes, from, Taken(path, stale)))
      && (cur' != NULL && next != -1 && (next < |path| || Dots(comp)) ==> Resolving(nodes, from, path, stale, done + [comp], next, comp, cur'))
  {
    hide Follow, Step;
    FollowMore(nodes, from, done, comp);
    StepsOn(path, stale, done, rest, before, next, comp);
    if Step(nodes, cur, comp) == NULL { FollowNull(nodes, from, done + [comp], Taken(path, stale)[|done| + 1..]); }
  }

  /** The steps taken so far are the first ones of all, and the last ones when the loop ends. */
  lemma StepsOn(path: seq<byte>, stale: Name, done: seq<Name>, rest: nat, before: Name, next: int, comp: Name)
    requires path != [] && rest <= |path| && Comps(path, 0) == done + Comps(path, rest)
    requires before == (if done == [] then stale else done[|done| - 1]) && (done != [] ==> Dots(before) || rest < |path|)
    requires NextIs(path, rest, before, next, comp) && comp != []
    ensures |done| < |Taken(path, stale)| && Taken(path, stale) == done + [comp] + Taken(path, stale)[|done| + 1..]
    ensures next == -1 || (next == |path| && !Dots(comp)) ==> Taken(path, stale) == done + [comp]
    ensures next != -1 ==> Comps(path, 0) == done + [comp] + Comps(path, next)
  {
    hide Comps;
    var cs := Comps(path, 0);
    if next == -1 {
      assert cs == done;
      assert Taken(path, stale) == done + [comp];
    } else {
      var more := Comps(path, next);
      Regroup(done, comp, more);
      if next == |path| { CompsAtEnd(path); }
      TakenFrom(path, stale, done + [comp], more);
    }
  }

  lemma Regroup(a: seq<Name>, c: Name, b: seq<Name>)
    ensures a + ([c] + b) == a + [c] + b
  {}

  lemma TakenFrom(path: seq<byte>, stale: Name, a: seq<Name>, b: seq<Name>)
    requires path != [] && Comps(path, 0) == a + b && a != []
    ensures |a| <= |Taken(path, stale)| && Taken(path, stale)[..|a|] == a
    ensures Taken(path, stale) == a + Taken(path, stale)[|a|..]
    ensures b == [] && !Dots(a[|a| - 1]) && path[|path| - 1] != SLASH ==> Taken(path, stale) == a
  {
    hide Comps;
    assert (a + b)[..|a|] == a;
  }

  lemma {:induction false} WalkStops(nodes: Nodes, from: Ptr, comps: seq<Name>, i: nat)
    requires i <= |comps| && Walk(nodes, from, comps[..i]) == NULL
    ensures Walk(nodes, from, comps) == NULL
    decreases |comps|
  {
    if i == |comps| {
      assert comps[..i] == comps;
    } else {
      assert comps[..|comps| - 1][..i] == comps[..i];
      WalkStops(nodes, from, comps[..|comps| - 1], i);
    }
  }

  // ---- When the buffer's last use makes a difference

  /** Only the root, or a node outside the tree, is its own parent. */
  lemma UpStays(nodes: Nodes, root: Ptr, depth: map<Ptr, nat>, p: Ptr)
    requires TreeOk(nodes, root, depth)
    ensures Up(nodes, p) == p <==> p !in nodes || p == root
  {
    if p in nodes && p != root { assert Attached(nodes, depth, p); }
  }

  /** A path whose last component is ".." goes up once more; that leads elsewhere unless it has led to the root, or nowhere. */
  lemma DotsAtEnd(nodes: Nodes, root: Ptr, depth: map<Ptr, nat>, from: Ptr, path: seq<byte>, stale: Name)
    requires TreeOk(nodes, root, depth) && path != [] && Comps(path, 0) != []
    requires var cs := Comps(path, 0); cs[|cs| - 1] == [DOT, DOT]
    ensures var p := Follow(nodes, from, Comps(path, 0));
      Follow(nodes, from, Taken(path, stale)) == p <==> p !in nodes || p == root
  {
    hide TreeOk, Follow, Comps;
    NoNullNode(nodes, root, depth);
    FollowMore(nodes, from, Comps(path, 0), [DOT, DOT]);
    UpStays(nodes, root, depth, Follow(nodes, from, Comps(path, 0)));
  }

  /** No node of the tree has something mounted on it. */
  predicate NoneMounted(nodes: Nodes) { forall p :: p in nodes ==> nodes[p].mount == NULL }

  /** A name does not lead from a directory to itself. */
  lemma StepMoves(nodes: Nodes, root: Ptr, depth: map<Ptr, nat>, p: Ptr, c: Name)
    requires TreeOk(nodes, root, depth) && NoneMounted(nodes) && p in nodes && !Dots(c)
    ensures Step(nodes, p, c) != p
  {
    var q := Lookup(nodes, p, c);
    if q != NULL {
      assert GoodChildren(nodes, p);
      if q != root { assert Attached(nodes, depth, q); }
    }
  }

  lemma {:induction false} FollowStays(nodes: Nodes, root: Ptr, depth: map<Ptr, nat>, from: Ptr, cs: seq<Name>)
    requires TreeOk(nodes, root, depth) && NoneMounted(nodes) && from in nodes
    ensures Follow(nodes, from, cs) == NULL || Follow(nodes, from, cs) in nodes
    decreases |cs|
  {
    if cs != [] {
      var p := Follow(nodes, from, cs[..|cs| - 1]);
      FollowStays(nodes, root, depth, from, cs[..|cs| - 1]);
      if p != NULL {
        assert GoodChildren(nodes, p);
        if p != root { assert Attached(nodes, depth, p); }
      }
    }
  }

  /** A path that ends in a name and a slash looks the name up once more; that leads elsewhere unless the path leads nowhere. */
  lemma SlashAtEnd(nodes: Nodes, root: Ptr, depth: map<Ptr, nat>, from: Ptr, path: seq<byte>, stale: Name)
    requires TreeOk(nodes, root, depth) && NoneMounted(nodes) && from in nodes && path != [] && path[|path| - 1] == SLASH
    requires Comps(path, 0) != []
    requires var cs := Comps(path, 0); !Dots(cs[|cs| - 1])
    ensures var p := Follow(nodes, from, Comps(path, 0));
      Follow(nodes, from, Taken(path, stale)) == p <==> p == NULL
  {
    hide TreeOk, Follow, Comps, Step;
    var cs := Comps(path, 0);
    FollowMore(nodes, from, cs, cs[|cs| - 1]);
    FollowStays(nodes, root, depth, from, cs);
    if Follow(nodes, from, cs) != NULL { StepMoves(nodes, root, depth, Follow(nodes, from, cs), cs[|cs| - 1]); }
  }

  /** A path of slashes only leads to the root exactly if the buffer holds nothing, "." or "..". */
  lemma OnlySlashes(nodes: Nodes, root: Ptr, depth: map<Ptr, nat>, path: seq<byte>, stale: Name)
    requires TreeOk(nodes, root, depth) && NoneMounted(nodes) && path != [] && Comps(path, 0) == []
    ensures Follow(nodes, root, Taken(path, stale)) == root <==> stale == [] || Dots(stale)
  {
    NoNullNode(nodes, root, depth);
    FollowMore(nodes, root, [], stale);
    assert [] + [stale] == [stale];
    if !Dots(stale) { StepMoves(nodes, root, depth, root, stale); }
  }

  /** A root with a directory "a" in it, and in that one a directory "b". */
  function TwoDeep(): Nodes {
    map[1 := TNode([SLASH], true, 1, NULL, [2]), 2 := TNode([97], true, 1, NULL, [3]), 3 := TNode([98], true, 2, NULL, [])]
  }

  lemma TwoDeepIsTree()
    ensures TreeOk(TwoDeep(), 1, map[1 := 0, 2 := 1, 3 := 2]) && NoneMounted(TwoDeep())
  {}

  lemma CompsOfThree(a: byte)
    requires a != SLASH
    ensures Comps([DOT, DOT], 0) == [[DOT, DOT]] && Comps([SLASH], 0) == [] && Comps([a, SLASH], 0) == [[a]]
  {
    assert Skip([SLASH], 0) == 1;
    assert Skip([a, SLASH], 0) == 0 && Skip([a, SLASH], 1) == 2 && EndFrom([a, SLASH], 0, 63) == EndFrom([a, SLASH], 1, 62) == 1;
    assert [a, SLASH][0..1] == [a];
    assert Skip([DOT, DOT], 0) == 0 && EndFrom([DOT, DOT], 0, 63) == EndFrom([DOT, DOT], 1, 62) == EndFrom([DOT, DOT], 2, 61) == 2;
    assert [DOT, DOT][0..2] == [DOT, DOT] && Skip([DOT, DOT], 2) == 2;
  }

  /** ".." from "/a/b" leads to the root, "a/" from the root nowhere, and "/" after a use of "a" to "a". */
  lemma LeadAstray()
    ensures TreeOk(TwoDeep(), 1, map[1 := 0, 2 := 1, 3 := 2]) && NoneMounted(TwoDeep())
    ensures Follow(TwoDeep(), 3, Comps([DOT, DOT], 0)) == 2 && Follow(TwoDeep(), 3, Taken([DOT, DOT], [])) == 1
    ensures Follow(TwoDeep(), 1, Comps([97, SLASH], 0)) == 2 && Follow(TwoDeep(), 1, Taken([97, SLASH], [])) == NULL
    ensures Follow(TwoDeep(), 1, Comps([SLASH], 0)) == 1 && Follow(TwoDeep(), 1, Taken([SLASH], [97])) == 2
  {
    hide TreeOk, Comps, Follow;
    TwoDeepIsTree();
    CompsOfThree(97);
    FollowTwo(3, [DOT, DOT], [DOT, DOT]);
    FollowTwo(1, [97], [97]);
    TwoLookups();
  }

  lemma TwoLookups()
    ensures Step(TwoDeep(), 1, [97]) == 2 && Step(TwoDeep(), 2, [97]) == NULL
    ensures Step(TwoDeep(), 3, [DOT, DOT]) == 2 && Step(TwoDeep(), 2, [DOT, DOT]) == 1
  {
    assert FindNamed(TwoDeep(), [2], [97]) == 2;
    assert FindNamed(TwoDeep(), [3], [97]) == FindNamed(TwoDeep(), [3][1..], [97]) == NULL;
  }

  lemma FollowTwo(from: Ptr, c: Name, e: Name)
    requires from != NULL
    ensures Follow(TwoDeep(), from, []) == from && Follow(TwoDeep(), from, [c]) == Step(TwoDeep(), from, c)
    ensures Follow(TwoDeep(), from, [c] + [e]) == var p := Step(TwoDeep(), from, c); if p == NULL then NULL else Step(TwoDeep(), p, e)
  {
    hide Step;
    FollowMore(TwoDeep(), from, [], c);
    assert [] + [c] == [c];
    FollowMore(TwoDeep(), from, [c], e);
  }
}
