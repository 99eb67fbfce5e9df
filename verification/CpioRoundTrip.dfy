/** What is looked up after a mount is what the archive holds. */
module CpioRoundTrip {
  import opened Options
  import opened Arith
  import opened Bytes
  import opened Vfs
  import opened Cpio

  // ----- Reading back what was written -----

  lemma {:induction false} HalvesRead(s: seq<byte>, at: nat, hs: seq<nat>, i: nat, place: nat)
    requires forall k :: 0 <= k < |hs| ==> hs[k] < HALF
    requires Has(s, at, EncodeHalves(hs)) && i < |hs| && place == at + 2 * i
    ensures Half(s, place) == hs[i]
    decreases |hs|
  {
    var first := [hs[0] % 256, hs[0] / 256];
    HasSplit(s, at, first, EncodeHalves(hs[1..]));
    if i == 0 {
      assert s[at] == s[at..at + 2][0] && s[at + 1] == s[at..at + 2][1];
    } else {
      HalvesRead(s, at + 2, hs[1..], i - 1, place);
    }
  }

  lemma {:induction false} WordRead(s: seq<byte>, at: nat, w: nat)
    requires at + 4 <= |s| && w < WORD
    requires Half(s, at) == w / HALF && Half(s, at + 2) == w % HALF
    ensures SwapHalves(Word(s, at)) == w
  {
    DivModUnique(Word(s, at), w % HALF, HALF, w / HALF);
  }

  lemma {:induction false} StringRead(s: seq<byte>, at: nat, name: seq<byte>)
    requires Has(s, at, name + [0]) && forall i :: 0 <= i < |name| ==> name[i] != 0
    ensures StringAt(s, at) == Some(name)
    decreases |name|
  {
    assert s[at] == s[at..at + |name| + 1][0];
    if name != [] {
      assert name + [0] == name[..1] + (name[1..] + [0]);
      HasSplit(s, at, name[..1], name[1..] + [0]);
      StringRead(s, at + 1, name[1..]);
      assert [name[0]] + name[1..] == name;
    }
  }

  lemma {:induction false} JoinHasNoNul(p: Path)
    requires PathOk(p)
    ensures forall i :: 0 <= i < |Join(p)| ==> Join(p)[i] != 0
  {
    assert NameOk(p[0]);
    if |p| > 1 { JoinHasNoNul(p[1..]); }
  }

  /** What the mount sees of an entry that starts at `at`. */
  function Seen(e: Entry, at: nat): Found
    requires EntryOk(e)
  {
    var data := DataPlace(e, at);
    File(Join(e.path), e.mode, e.uid, e.gid, e.mtime, |e.data|, data, data + |e.data| + |e.data| % 2)
  }

  function DataPlace(e: Entry, at: nat): nat
    requires EntryOk(e)
  {
    var namesize := |Join(e.path)| + 1;
    at + HEADER + namesize + namesize % 2
  }

  lemma {:induction false} HeaderRead(s: seq<byte>, at: nat, e: Entry, name: nat)
    requires EntryOk(e) && name < HALF && Has(s, at, EncodeHalves(HeaderHalves(e, name)))
    ensures at + HEADER <= |s| && Half(s, at) == MAGIC
    ensures Half(s, at + 6) == e.mode && Half(s, at + 8) == e.uid && Half(s, at + 10) == e.gid
    ensures SwapHalves(Word(s, at + 16)) == e.mtime && Half(s, at + 20) == name
    ensures SwapHalves(Word(s, at + 22)) == |e.data|
  {
    hide EncodeHalves, Half, Word, SwapHalves, Join, PathOk;
    var hs := HeaderHalves(e, name);
    HalvesRead(s, at, hs, 0, at);
    HalvesRead(s, at, hs, 3, at + 6);
    HalvesRead(s, at, hs, 4, at + 8);
    HalvesRead(s, at, hs, 5, at + 10);
    HalvesRead(s, at, hs, 8, at + 16);
    HalvesRead(s, at, hs, 9, at + 18);
    HalvesRead(s, at, hs, 10, at + 20);
    HalvesRead(s, at, hs, 11, at + 22);
    HalvesRead(s, at, hs, 12, at + 24);
    WordRead(s, at + 16, e.mtime);
    WordRead(s, at + 22, |e.data|);
  }

  lemma {:induction false} NestedParts(s: seq<byte>, at: nat, a: seq<byte>, b: seq<byte>, c: seq<byte>,
                                       d: seq<byte>, e: seq<byte>)
    requires Has(s, at, a + (b + (c + (d + e))))
    ensures Has(s, at, a) && Has(s, at + |a|, b) && Has(s, at + |a| + |b| + |c|, d)
  {
    hide Has;
    HasSplit(s, at, a, b + (c + (d + e)));
    HasSplit(s, at + |a|, b, c + (d + e));
    HasSplit(s, at + |a| + |b|, c, d + e);
    HasSplit(s, at + |a| + |b| + |c|, d, e);
  }

  /** Header, name and data of an encoded entry, each in its place. */
  lemma {:induction false} EntryParts(s: seq<byte>, at: nat, e: Entry)
    requires EntryOk(e) && Has(s, at, EncodeEntry(e))
    ensures Has(s, at, EncodeHalves(HeaderHalves(e, |Join(e.path)| + 1)))
    ensures Has(s, at + HEADER, Join(e.path) + [0])
    ensures Has(s, DataPlace(e, at), e.data)
    ensures Seen(e, at).next == at + |EncodeEntry(e)|
  {
    var name := Join(e.path) + [0];
    var head := EncodeHalves(HeaderHalves(e, |name|));
    var body := e.data + Padding(|e.data|);
    hide EncodeHalves, HeaderHalves, Join, EntryOk, Has, Padding;
    NestedParts(s, at, head, name, Padding(|name|), e.data, Padding(|e.data|));
  }

  lemma {:induction false} EntryRead(s: seq<byte>, at: nat, e: Entry)
    requires EntryOk(e) && Has(s, at, EncodeEntry(e))
    ensures EntryAt(s, at) == Seen(e, at) && Seen(e, at).next == at + |EncodeEntry(e)|
    ensures Has(s, DataPlace(e, at), e.data)
  {
    hide EncodeHalves, EncodeEntry, Half, Word, SwapHalves, Join, PathOk, HeaderHalves, StringAt, Has;
    PathNotEmpty(e.path);
    EntryParts(s, at, e);
    HeaderRead(s, at, e, |Join(e.path)| + 1);
    JoinHasNoNul(e.path);
    StringRead(s, at + HEADER, Join(e.path));
  }

  lemma {:induction false} TrailerRead(s: seq<byte>, at: nat)
    requires Has(s, at, EncodeTrailer())
    ensures EntryAt(s, at) == Trailer
  {
    hide EncodeHalves, Half, StringAt, Has;
    var hs := [0x71C7, 0, 0, 0, 0, 0, 1, 0, 0, 0, 11, 0, 0];
    HasSplit(s, at, EncodeHalves(hs), TRAILER + [0, 0]);
    HalvesRead(s, at, hs, 0, at) ;
    assert TRAILER + [0, 0] == (TRAILER + [0]) + [0];
    HasSplit(s, at + HEADER, TRAILER + [0], [0]);
    StringRead(s, at + HEADER, TRAILER);
    HasEnds(s, at + HEADER, TRAILER + [0]);
  }

  lemma {:induction false} HasEnds(s: seq<byte>, at: nat, part: seq<byte>)
    requires Has(s, at, part)
    ensures at + |part| <= |s|
  {
  }

  // ----- Directory and base name of a path -----

  lemma {:induction false} AfterSlashIs(s: seq<byte>, k: nat)
    requires k <= |s| && (k > 0 ==> s[k - 1] == SLASH)
    requires forall i :: k <= i < |s| ==> s[i] != SLASH
    ensures AfterSlash(s) == k
  {
    if |s| > k { AfterSlashIs(s[..|s| - 1], k); }
  }

  lemma {:induction false} JoinBack(p: Path)
    requires |p| > 1
    ensures Join(p) == Join(p[..|p| - 1]) + [SLASH] + p[|p| - 1]
  {
    if |p| == 2 {
      assert Join(p[1..]) == p[1] && Join(p[..1]) == p[0];
    } else {
      JoinBack(p[1..]);
      var q := p[..|p| - 1];
      assert p[1..][..|p| - 2] == q[1..];
      assert Join(q) == p[0] + [SLASH] + Join(q[1..]);
      assert p[0] + [SLASH] + (Join(q[1..]) + [SLASH] + p[|p| - 1]) ==
             p[0] + [SLASH] + Join(q[1..]) + [SLASH] + p[|p| - 1];
    }
  }

  lemma {:induction false} NamesOf(p: Path)
    requires PathOk(p)
    ensures BaseName(Join(p)) == p[|p| - 1]
    ensures DirName(Join(p)) == if |p| == 1 then [DOT] else Join(p[..|p| - 1])
  {
    var last := p[|p| - 1];
    assert NameOk(last);
    if |p| == 1 {
      AfterSlashIs(Join(p), 0);
    } else {
      JoinBack(p);
      var k := |Join(p[..|p| - 1])| + 1;
      AfterSlashIs(Join(p), k);
      assert Join(p)[k..] == last;
    }
  }

  /** The directory of a path is looked up by walking all but its last name. */
  lemma {:induction false} HomeIsWalk(t: Tree, m: nat, p: Path)
    requires Valid(t) && m < |t| && PathOk(p) && |Join(p)| <= FILE_NAME_MAX
    ensures Home(t, m, Join(p)) == var d := Walk(t, m, p[..|p| - 1]); if d.Some? then d.value else 0
  {
    hide Join, FirstSlash, AfterSlash, FindDir;
    NamesOf(p);
    if |p| > 1 { FindFileIsWalk(t, m, p[..|p| - 1]); }
  }

  // ----- The archive as a map from paths to entries -----

  /** The first of the leading `k` entries for a path. */
  function First(es: seq<Entry>, k: nat, p: Path): (r: Option<nat>)
    requires k <= |es|
    ensures r.Some? ==> r.value < k && es[r.value].path == p && forall i :: 0 <= i < r.value ==> es[i].path != p
    ensures r.None? ==> forall i :: 0 <= i < k ==> es[i].path != p
  {
    if k == 0 then None
    else
      var r := First(es, k - 1, p);
      if r.Some? then r else if es[k - 1].path == p then Some(k - 1) else None
  }

  predicate ParentsFirst(es: seq<Entry>)
    requires AllOk(es)
  {
    forall k :: 0 <= k < |es| ==> HasParent(es, k)
  }

  predicate HasParent(es: seq<Entry>, k: nat)
    requires k < |es| && EntryOk(es[k])
  {
    var p := es[k].path;
    |p| == 1 || First(es, k, p[..|p| - 1]).Some?
  }

  /** Where a path should lead: `m` itself, or the file of the first entry for it. */
  function Target(es: seq<Entry>, k: nat, m: nat, b: nat, p: Path): Option<nat>
    requires k <= |es|
  {
    if p == [] then Some(m)
    else
      var r := First(es, k, p);
      if r.Some? then Some(b + r.value) else None
  }

  /** Each file type has its own flag; sockets and unknown types have none. */
  predicate FlagsTell(flags: nat, kind: nat) {
    && (flags == 1 <==> kind == 8) && (flags == 2 <==> kind == 4) && (flags == 4 <==> kind == 2)
    && (flags == 8 <==> kind == 6) && (flags == 16 <==> kind == 1) && (flags == 32 <==> kind == 10)
    && (flags == 0 <==> kind !in {1, 2, 4, 6, 8, 10})
  }

  /** The file holds the entry: its name, its attributes, and the place of its bytes in the image. */
  predicate FileMatches(s: seq<byte>, n: Node, e: Entry)
    requires EntryOk(e)
  {
    && n.name == e.path[|e.path| - 1] && n.length == |e.data| && Has(s, n.info, e.data)
    && n.uid == e.uid && n.gid == e.gid && n.mtime == e.mtime
    && n.pflags == e.mode % 0x1000 && FlagsTell(n.flags, e.mode / 0x1000)
  }

  ghost predicate WalksTo(t: Tree, m: nat, b: nat, es: seq<Entry>, k: nat)
    requires Valid(t) && m < |t| && k <= |es|
  {
    forall p: Path :: Walk(t, m, p) == Target(es, k, m, b, p)
  }

  predicate FilesMatch(s: seq<byte>, t: Tree, b: nat, es: seq<Entry>, k: nat)
    requires AllOk(es) && k <= |es| && b + k <= |t|
  {
    forall i :: 0 <= i < k ==> FileMatches(s, t[b + i], es[i])
  }

  /** After `k` entries, mounted at `m` of a tree that had `b` files. */
  ghost predicate Mounted(s: seq<byte>, t: Tree, m: nat, b: nat, es: seq<Entry>, k: nat) {
    && Valid(t) && AllOk(es) && k <= |es| && m < b && |t| == b + k
    && WalksTo(t, m, b, es, k) && FilesMatch(s, t, b, es, k)
  }

  lemma {:induction false} NothingBelow(t: Tree, m: nat, p: Path)
    requires Valid(t) && m < |t| && t[m].children == [] && p != []
    ensures Walk(t, m, p) == None
  {
    WalkFront(t, m, p);
  }

  lemma {:induction false} MountedStart(s: seq<byte>, t: Tree, m: nat, es: seq<Entry>)
    requires Valid(t) && m < |t| && t[m].children == [] && AllOk(es)
    ensures Mounted(s, t, m, |t|, es, 0)
  {
    forall p: Path ensures Walk(t, m, p) == Target(es, 0, m, |t|, p) {
      if p != [] { NothingBelow(t, m, p); }
    }
  }

  lemma {:induction false} TargetOnlyWay(t: Tree, m: nat, b: nat, es: seq<Entry>, k: nat, dir: Path, d: nat)
    requires Valid(t) && k <= |es| && m < b <= |t| && WalksTo(t, m, b, es, k)
    requires Walk(t, m, dir) == Some(d)
    ensures OnlyWay(t, m, dir, d)
  {
    hide Walk;
    forall q: Path | Walk(t, m, q) == Some(d) ensures q == dir {
      assert Target(es, k, m, b, q) == Target(es, k, m, b, dir) == Some(d);
    }
  }

  lemma {:induction false} WalksStep(t: Tree, m: nat, b: nat, es: seq<Entry>, k: nat, file: Node, dir: Path, d: nat)
    requires Valid(t) && k < |es| && m < b && |t| == b + k && WalksTo(t, m, b, es, k)
    requires Walk(t, m, dir) == Some(d) && d < |t| && es[k].path == dir + [file.name]
    ensures WalksTo(Added(t, file, d), m, b, es, k + 1)
  {
    hide Walk, Added;
    TargetOnlyWay(t, m, b, es, k, dir, d);
    forall p: Path ensures Walk(Added(t, file, d), m, p) == Target(es, k + 1, m, b, p) {
      WalkAdded(t, file, m, dir, d, p);
      assert Walk(t, m, p) == Target(es, k, m, b, p);
    }
  }

  lemma {:induction false} FilesStep(s: seq<byte>, t: Tree, b: nat, es: seq<Entry>, k: nat, file: Node, d: nat)
    requires Valid(t) && AllOk(es) && k < |es| && |t| == b + k && d < |t|
    requires FilesMatch(s, t, b, es, k) && FileMatches(s, file, es[k])
    ensures FilesMatch(s, Added(t, file, d), b, es, k + 1)
  {
    hide Has, EntryOk, Flags;
    forall i | 0 <= i < k + 1 ensures FileMatches(s, Added(t, file, d)[b + i], es[i]) {
      assert EntryOk(es[i]);
      if i < k { assert FileMatches(s, t[b + i], es[i]); }
    }
  }

  lemma {:induction false} MountedStep(s: seq<byte>, at: nat, t: Tree, m: nat, b: nat, es: seq<Entry>, k: nat)
    requires Mounted(s, t, m, b, es, k) && k < |es| && ParentsFirst(es)
    requires Has(s, at, EncodeEntry(es[k]))
    ensures var f := Seen(es[k], at);
            EntryAt(s, at) == f && Mounted(s, Added(t, FileOf(f), Home(t, m, f.name)), m, b, es, k + 1)
  {
    hide EntryAt, EncodeEntry, Walk, WalksTo, FilesMatch, Has, Home, Added, Target, PathOk, Join;
    var e := es[k];
    PathNotEmpty(e.path);
    EntryRead(s, at, e);
    var f := Seen(e, at);
    var dir := e.path[..|e.path| - 1];
    HomeIsWalk(t, m, e.path);
    ParentLeads(t, m, b, es, k, dir);
    NamesOf(e.path);
    var file, d := FileOf(f), Home(t, m, f.name);
    assert e.path == dir + [file.name];
    WalksStep(t, m, b, es, k, file, dir, d);
    FilesStep(s, t, b, es, k, file, d);
    AddedGrows(t, file, d);
  }

  lemma {:induction false} AddedGrows(t: Tree, file: Node, d: nat)
    requires Valid(t) && d < |t|
    ensures Valid(Added(t, file, d)) && |Added(t, file, d)| == |t| + 1
  {
  }

  lemma {:induction false} ParentLeads(t: Tree, m: nat, b: nat, es: seq<Entry>, k: nat, dir: Path)
    requires Valid(t) && k < |es| && m < |t| && WalksTo(t, m, b, es, k) && AllOk(es) && ParentsFirst(es)
    requires |es[k].path| > 0 && dir == es[k].path[..|es[k].path| - 1]
    ensures Walk(t, m, dir).Some?
  {
    hide Walk;
    assert HasParent(es, k);
    assert Walk(t, m, dir) == Target(es, k, m, b, dir);
  }

  /** From any entry on, the mount reaches the trailer with every entry in place. */
  lemma {:induction false} MountFrom(s: seq<byte>, at: nat, t: Tree, m: nat, b: nat, es: seq<Entry>, k: nat)
    requires Mounted(s, t, m, b, es, k) && ParentsFirst(es)
    requires Has(s, at, Archive(es[k..]))
    ensures var r := Mount(s, at, t, m); r.1 == Trailer && Mounted(s, r.0, m, b, es, |es|)
    decreases |es| - k
  {
    hide Mounted, ParentsFirst, EntryAt, EncodeEntry, Has, FileOf, Home, Added, EncodeTrailer;
    MountedBounds(s, t, m, b, es, k);
    if k == |es| {
      TrailerRead(s, at);
    } else {
      var f := Seen(es[k], at);
      assert es[k..][1..] == es[k + 1..];
      HasSplit(s, at, EncodeEntry(es[k]), Archive(es[k + 1..]));
      EntryRead(s, at, es[k]);
      MountedStep(s, at, t, m, b, es, k);
      MountFrom(s, f.next, Added(t, FileOf(f), Home(t, m, f.name)), m, b, es, k + 1);
    }
  }

  lemma {:induction false} MountedBounds(s: seq<byte>, t: Tree, m: nat, b: nat, es: seq<Entry>, k: nat)
    requires Mounted(s, t, m, b, es, k)
    ensures Valid(t) && AllOk(es) && k <= |es| && m < b && |t| == b + k
  {
  }

  /** After a mount, a path leads to the file of the first entry for it, and nowhere if the archive has none. */
  lemma {:induction false} MountThenFind(es: seq<Entry>, rest: seq<byte>, t: Tree, m: nat, p: Path)
    requires AllOk(es) && ParentsFirst(es) && PathOk(p)
    requires Valid(t) && m < |t| && t[m].children == []
    ensures var s := Archive(es) + rest;
            var r := Mount(s, 0, t, m);
            var found := FindFile(r.0, Some(m), Join(p));
            var first := First(es, |es|, p);
            && r.1 == Trailer && |r.0| == |t| + |es|
            && (first.None? ==> found.None?)
            && (first.Some? ==> found == Some(|t| + first.value) && FileMatches(s, r.0[found.value], es[first.value]))
  {
    hide Mount, FindFile, Walk, Archive, FileMatches, ParentsFirst, AllOk, PathOk, Join;
    var s := Archive(es) + rest;
    MountedStart(s, t, m, es);
    assert es[0..] == es && s[0..0 + |Archive(es)|] == Archive(es);
    MountFrom(s, 0, t, m, |t|, es, 0);
    var t' := Mount(s, 0, t, m).0;
    FindFileIsWalk(t', m, p);
    PathNotEmpty(p);
    assert Walk(t', m, p) == Target(es, |es|, m, |t|, p);
  }

  lemma {:induction false} PathNotEmpty(p: Path)
    requires PathOk(p)
    ensures p != []
  {
  }

  /** With distinct paths, every entry is found, with its own length and bytes. */
  lemma {:induction false} EveryEntryIsFound(es: seq<Entry>, rest: seq<byte>, t: Tree, m: nat, k: nat)
    requires AllOk(es) && ParentsFirst(es) && k < |es|
    requires forall i, j :: 0 <= i < j < |es| ==> es[i].path != es[j].path
    requires Valid(t) && m < |t| && t[m].children == []
    ensures var s := Archive(es) + rest;
            var t' := Mount(s, 0, t, m).0;
            var found := FindFile(t', Some(m), Join(es[k].path));
            found == Some(|t| + k) && FileMatches(s, t'[found.value], es[k])
  {
    hide Mount, FindFile, Archive, FileMatches, ParentsFirst, Join;
    assert EntryOk(es[k]);
    MountThenFind(es, rest, t, m, es[k].path);
  }
}
