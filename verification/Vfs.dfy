/**
  The file tree and its path lookup. A file's inode number is its place in
  `nodes`: the counter starts at 1, the root is 0, and every file gets the next.
  */
module Vfs {
  import opened Options
  import opened Bytes

  const SLASH: byte := 47
  const DOT: byte := 46
  const FS_DIR: nat := 2

  /** `info` is the driver's place of the file's data. */
  datatype Node = Node(
    name: seq<byte>, length: nat, info: nat, uid: nat, gid: nat, pflags: nat, flags: nat, mtime: nat,
    parent: Option<nat>, children: seq<nat>)

  type Tree = seq<Node>

  predicate Valid(t: Tree) {
    && |t| > 0
    && (forall f :: 0 <= f < |t| ==> NodeValid(t[f], |t|))
  }

  predicate NodeValid(n: Node, size: nat) {
    && (n.parent.Some? ==> n.parent.value < size)
    && (forall k :: 0 <= k < |n.children| ==> n.children[k] < size)
  }

  // ----- Lookup -----

  /** The first of `kids` that is called `name`. */
  function FirstNamed(t: Tree, kids: seq<nat>, name: seq<byte>): (r: Option<nat>)
    requires forall k :: 0 <= k < |kids| ==> kids[k] < |t|
    ensures r.Some? ==> r.value in kids && t[r.value].name == name
    ensures r.None? ==> forall k :: 0 <= k < |kids| ==> t[kids[k]].name != name
  {
    if kids == [] then None
    else if t[kids[0]].name == name then Some(kids[0])
    else FirstNamed(t, kids[1..], name)
  }

  function FindDir(t: Tree, f: nat, name: seq<byte>): (r: Option<nat>)
    requires Valid(t) && f < |t|
    ensures r.Some? ==> r.value < |t|
  {
    assert NodeValid(t[f], |t|);
    FirstNamed(t, t[f].children, name)
  }

  /** Place of the first separator, the length of the path if there is none. */
  function FirstSlash(path: seq<byte>): (k: nat)
    ensures k <= |path| && (k < |path| ==> path[k] == SLASH)
    ensures forall i :: 0 <= i < k ==> path[i] != SLASH
  {
    if path == [] || path[0] == SLASH then 0 else 1 + FirstSlash(path[1..])
  }

  /** fs_find_file; no starting file means the root. */
  function FindFile(t: Tree, from: Option<nat>, path: seq<byte>): (r: Option<nat>)
    requires Valid(t) && (from.Some? ==> from.value < |t|)
    ensures r.Some? ==> r.value < |t|
    decreases |path|
  {
    if path == [] then None
    else
      var f := if from.None? then 0 else from.value;
      assert NodeValid(t[f], |t|);
      if path[0] == DOT then
        if |path| > 1 && path[1] == DOT then
          if |path| > 2 then FindFile(t, t[f].parent, path[if path[2] == SLASH then 3 else 2..]) else t[f].parent
        else
          if |path| > 1 then FindFile(t, Some(f), path[if path[1] == SLASH then 2 else 1..]) else Some(f)
      else if path[0] == SLASH then
        if |path| > 1 then FindFile(t, Some(0), path[1..]) else Some(0)
      else
        var sep := FirstSlash(path);
        if sep < |path| then
          var g := FindDir(t, f, path[..sep]);
          if g.Some? then FindFile(t, g, path[sep + 1..]) else None
        else FindDir(t, f, path)
  }

  // ----- Paths as lists of names -----

  type Path = seq<seq<byte>>

  predicate NameOk(name: seq<byte>) {
    name != [] && name[0] != 46 && forall i :: 0 <= i < |name| ==> name[i] != 47 && name[i] != 0
  }

  predicate PathOk(p: Path) {
    p != [] && forall i :: 0 <= i < |p| ==> NameOk(p[i])
  }

  function Join(p: Path): (s: seq<byte>)
    requires p != []
  {
    if |p| == 1 then p[0] else p[0] + [47] + Join(p[1..])
  }

  /** Where a list of names leads, one directory at a time. */
  function Walk(t: Tree, f: nat, p: Path): (r: Option<nat>)
    requires Valid(t) && f < |t|
    ensures r.Some? ==> r.value < |t|
    decreases |p|
  {
    if p == [] then Some(f)
    else
      var d := Walk(t, f, p[..|p| - 1]);
      if d.Some? then FindDir(t, d.value, p[|p| - 1]) else None
  }

  lemma {:induction false} WalkFront(t: Tree, f: nat, p: Path)
    requires Valid(t) && f < |t| && p != []
    ensures Walk(t, f, p) == var g := FindDir(t, f, p[0]); if g.Some? then Walk(t, g.value, p[1..]) else None
    decreases |p|
  {
    hide FindDir;
    if |p| == 1 {
      assert p[..0] == [] && p[1..] == [];
    } else {
      WalkFront(t, f, p[..|p| - 1]);
      assert p[..|p| - 1][1..] == p[1..][..|p| - 2];
      assert p[1..][|p| - 2] == p[|p| - 1];
    }
  }

  lemma {:induction false} FirstSlashIs(path: seq<byte>, k: nat)
    requires k <= |path| && (k < |path| ==> path[k] == SLASH)
    requires forall i :: 0 <= i < k ==> path[i] != SLASH
    ensures FirstSlash(path) == k
  {
    if k > 0 { FirstSlashIs(path[1..], k - 1); }
  }

  lemma {:induction false} JoinParts(p: Path)
    requires PathOk(p)
    ensures var s := Join(p);
            s != [] && s[0] != DOT && s[0] != SLASH && FirstSlash(s) == |p[0]| && s[..|p[0]|] == p[0] &&
            if |p| == 1 then |s| == |p[0]| else |p[0]| < |s| && PathOk(p[1..]) && s[|p[0]| + 1..] == Join(p[1..])
  {
    assert NameOk(p[0]);
    FirstSlashIs(Join(p), |p[0]|);
  }

  /** Looking up a path as text follows its names from directory to directory. */
  lemma {:induction false} FindFileIsWalk(t: Tree, f: nat, p: Path)
    requires Valid(t) && f < |t| && PathOk(p)
    ensures FindFile(t, Some(f), Join(p)) == Walk(t, f, p)
    decreases |p|
  {
    hide FindDir, Join, FirstSlash, Walk;
    JoinParts(p);
    WalkFront(t, f, p);
    var s := Join(p);
    if |p| == 1 {
      assert s == p[0];
      WalkNowhere(t, p[1..]);
    } else {
      var g := FindDir(t, f, p[0]);
      if g.Some? { FindFileIsWalk(t, g.value, p[1..]); }
    }
  }

  lemma {:induction false} WalkNowhere(t: Tree, p: Path)
    requires Valid(t) && p == []
    ensures forall f :: 0 <= f < |t| ==> Walk(t, f, p) == Some(f)
  {
  }

  // ----- Paths with "." and ".." -----

  datatype Part = Here | Up | Named(name: seq<byte>)

  predicate PartOk(p: Part) {
    p.Named? ==> NameOk(p.name)
  }

  function PartText(p: Part): seq<byte> {
    match p
    case Here => [46]
    case Up => [46, 46]
    case Named(name) => name
  }

  function PathText(ps: seq<Part>): seq<byte>
    requires ps != []
  {
    if |ps| == 1 then PartText(ps[0]) else PartText(ps[0]) + ([47] + PathText(ps[1..]))
  }

  /** Where the parts lead, one by one; above the root is the root again, but only on the way to somewhere. */
  function Follow(t: Tree, f: nat, ps: seq<Part>): (r: Option<nat>)
    requires Valid(t) && f < |t|
    ensures r.Some? ==> r.value < |t|
    decreases |ps|
  {
    if ps == [] then Some(f)
    else
      assert NodeValid(t[f], |t|);
      match ps[0]
      case Here => Follow(t, f, ps[1..])
      case Up =>
        if |ps| == 1 then t[f].parent
        else Follow(t, if t[f].parent.Some? then t[f].parent.value else 0, ps[1..])
      case Named(name) =>
        var g := FindDir(t, f, name);
        if g.Some? then Follow(t, g.value, ps[1..]) else None
  }

  /** Looking up a path as text follows its parts, from a file or, behind a separator, from the root. */
  lemma {:induction false} FindFileFollows(t: Tree, f: nat, ps: seq<Part>)
    requires Valid(t) && f < |t| && ps != [] && forall i :: 0 <= i < |ps| ==> PartOk(ps[i])
    ensures FindFile(t, Some(f), PathText(ps)) == Follow(t, f, ps)
    ensures f == 0 ==> FindFile(t, None, PathText(ps)) == Follow(t, 0, ps)
    decreases |ps|
  {
    var path := PathText(ps);
    assert PartOk(ps[0]) && path != [] && NodeValid(t[f], |t|);
    if |ps| > 1 {
      var rest := ps[1..];
      assert path == PartText(ps[0]) + ([47] + PathText(rest));
      assert path[|PartText(ps[0])|..] == [47] + PathText(rest) && path[|PartText(ps[0])| + 1..] == PathText(rest);
      match ps[0]
      case Here => FindFileFollows(t, f, rest);
      case Up => FindFileFollows(t, if t[f].parent.Some? then t[f].parent.value else 0, rest);
      case Named(name) =>
        FirstSlashIs(path, |name|);
        assert path[..|name|] == name;
        var g := FindDir(t, f, name);
        if g.Some? { FindFileFollows(t, g.value, rest); }
    } else {
      assert path == PartText(ps[0]);
      if ps[0].Named? { FirstSlashIs(path, |path|); }
    }
  }

  lemma {:induction false} FindFileFromRoot(t: Tree, from: Option<nat>, ps: seq<Part>)
    requires Valid(t) && (from.Some? ==> from.value < |t|)
    requires ps != [] && forall i :: 0 <= i < |ps| ==> PartOk(ps[i])
    ensures FindFile(t, from, [47] + PathText(ps)) == Follow(t, 0, ps)
    ensures FindFile(t, from, [47]) == Some(0)
  {
    var path := [47] + PathText(ps);
    assert PartOk(ps[0]) && PathText(ps) != [];
    assert path[0] == SLASH && path[1..] == PathText(ps) && |path| > 1;
    FindFileFollows(t, 0, ps);
  }

  /** A name that starts with a dot is looked up without it, so a file of that name is never found. */
  lemma {:induction false} DotIsDropped(t: Tree, f: nat, name: seq<byte>)
    requires Valid(t) && f < |t| && NameOk(name)
    ensures FindFile(t, Some(f), [46] + name) == FindDir(t, f, name)
    ensures FindDir(t, f, [46] + name).Some? ==> FindFile(t, Some(f), [46] + name) != FindDir(t, f, [46] + name)
  {
    var path := [46] + name;
    FirstSlashIs(name, |name|);
    assert path[1..] == name && path[0] == DOT && path[1] == name[0];
    assert FindFile(t, Some(f), path) == FindFile(t, Some(f), name);
  }

  // ----- Adding a file -----

  /** fs_add_file: `file` becomes the last child of `parent`. */
  function Added(t: Tree, file: Node, parent: nat): (t': Tree)
    requires Valid(t) && parent < |t|
    ensures Valid(t') && |t'| == |t| + 1
  {
    var d := t[parent];
    var t' := t[parent := d.(children := d.children + [|t|])] + [file.(parent := Some(parent), children := [])];
    assert forall f :: 0 <= f < |t| ==> NodeValid(t[f], |t|) && NodeValid(t[f], |t| + 1);
    t'
  }

  lemma {:induction false} FirstNamedAdded(t: Tree, file: Node, parent: nat, kids: seq<nat>, name: seq<byte>)
    requires Valid(t) && parent < |t|
    requires forall k :: 0 <= k < |kids| ==> kids[k] < |t|
    ensures FirstNamed(Added(t, file, parent), kids, name) == FirstNamed(t, kids, name)
  {
    if kids != [] { FirstNamedAdded(t, file, parent, kids[1..], name); }
  }

  lemma {:induction false} FirstNamedAppend(t: Tree, kids: seq<nat>, last: nat, name: seq<byte>)
    requires last < |t| && forall k :: 0 <= k < |kids| ==> kids[k] < |t|
    ensures FirstNamed(t, kids + [last], name) ==
            var r := FirstNamed(t, kids, name); if r.Some? then r else if t[last].name == name then Some(last) else None
  {
    if kids != [] {
      assert (kids + [last])[1..] == kids[1..] + [last];
      FirstNamedAppend(t, kids[1..], last, name);
    }
  }

  /** One directory after the addition: the new file shows up only where nothing hides it. */
  lemma {:induction false} FindDirAdded(t: Tree, file: Node, parent: nat, f: nat, name: seq<byte>)
    requires Valid(t) && parent < |t| && f <= |t|
    ensures var t' := Added(t, file, parent);
            FindDir(t', f, name) ==
            if f == |t| then None
            else if FindDir(t, f, name).Some? then FindDir(t, f, name)
            else if f == parent && file.name == name then Some(|t|) else None
  {
    var t' := Added(t, file, parent);
    if f < |t| {
      assert NodeValid(t[f], |t|);
      FirstNamedAdded(t, file, parent, t[f].children, name);
      if f == parent { FirstNamedAppend(t', t[f].children, |t|, name); }
    }
  }

  /** No two lists of names lead from `m` to `d`. */
  ghost predicate OnlyWay(t: Tree, m: nat, p: Path, d: nat)
    requires Valid(t) && m < |t|
  {
    forall q: Path :: Walk(t, m, q) == Some(d) ==> q == p
  }

  /**
    Every walk after the addition: as before, and the new file at the end of its own path unless
    something was there.
    */
  lemma {:induction false} WalkAdded(t: Tree, file: Node, m: nat, dir: Path, d: nat, p: Path)
    requires Valid(t) && m < |t| && Walk(t, m, dir) == Some(d) && OnlyWay(t, m, dir, d)
    ensures d < |t|
    ensures Walk(Added(t, file, d), m, p) ==
            if Walk(t, m, p).Some? then Walk(t, m, p) else if p == dir + [file.name] then Some(|t|) else None
    decreases |p|
  {
    hide FindDir, Added;
    if p != [] {
      var q, y := p[..|p| - 1], p[|p| - 1];
      WalkAdded(t, file, m, dir, d, q);
      assert p == q + [y];
      var e := Walk(Added(t, file, d), m, q);
      if e.Some? { FindDirAdded(t, file, d, e.value, y); }
      assert p == dir + [file.name] <==> q == dir && y == file.name by {
        if p == dir + [file.name] { assert p[..|p| - 1] == dir; }
      }
    }
  }

  // ----- The tree in memory -----

  function Root(): Node {
    Node([], 0, 0, 0, 0, 0x1ED, FS_DIR, 0, None, [])
  }

  class FileSystem {
    var nodes: Tree

    constructor ()
      ensures nodes == [Root()] && Valid(nodes)
    {
      nodes := [Root()];
    }

    method AddFile(file: Node, parent: Option<nat>) returns (inode: nat)
      requires Valid(nodes) && (parent.Some? ==> parent.value < |nodes|)
      modifies this
      ensures Valid(nodes)
      ensures nodes == Added(old(nodes), file, if parent.Some? then parent.value else 0)
      ensures inode == old(|nodes|)
    {
      var d := if parent.Some? then parent.value else 0;
      assert forall f :: 0 <= f < |nodes| ==> NodeValid(nodes[f], |nodes|) && NodeValid(nodes[f], |nodes| + 1);
      inode := |nodes|;
      nodes := nodes[d := nodes[d].(children := nodes[d].children + [inode])];
      nodes := nodes + [file.(parent := Some(d), children := [])];
    }

    /** fs_finddir: the children in order, until one has the name. */
    method FindDirectory(f: Option<nat>, name: seq<byte>) returns (r: Option<nat>)
      requires Valid(nodes) && (f.Some? ==> f.value < |nodes|)
      ensures r == if f.None? then None else FindDir(nodes, f.value, name)
    {
      if f.None? { return None; }
      var kids := nodes[f.value].children;
      assert NodeValid(nodes[f.value], |nodes|);
      var k := 0;
      while k < |kids|
        invariant 0 <= k <= |kids|
        invariant FirstNamed(nodes, kids[k..], name) == FindDir(nodes, f.value, name)
      {
        if nodes[kids[k]].name == name { return Some(kids[k]); }
        assert kids[k..][1..] == kids[k + 1..];
        k := k + 1;
      }
      r := None;
    }
  }
}
