/** Mounting an old binary CPIO archive (cpio(5), "Old Binary Format"). */
module Cpio {
  import opened Options
  import opened Arith
  import opened Bytes
  import opened Vfs

  const MAGIC: nat := 0x71C7  // 070707
  const HEADER: nat := 26
  const FILE_NAME_MAX: nat := 256
  const HALF: nat := 0x1_0000
  /** "TRAILER!!!" */
  const TRAILER: seq<byte> := [84, 82, 65, 73, 76, 69, 82, 33, 33, 33]

  // ----- The format -----

  datatype Entry = Entry(
    path: Path, dev: nat, ino: nat, mode: nat, uid: nat, gid: nat, nlink: nat, rdev: nat, mtime: nat, data: seq<byte>)

  /** "TRAILER!!!" */
  function TrailerName(): seq<byte> {
    [84, 82, 65, 73, 76, 69, 82, 33, 33, 33]
  }

  predicate EntryOk(e: Entry) {
    && PathOk(e.path)
    && |Join(e.path)| <= 256 && |e.path[|e.path| - 1]| < 256
    && Join(e.path) != TrailerName()
    && e.dev < HALF && e.ino < HALF && e.mode < HALF && e.uid < HALF && e.gid < HALF
    && e.nlink < HALF && e.rdev < HALF && e.mtime < WORD && |e.data| < WORD
  }

  /** Sixteen-bit values, low byte first. */
  function EncodeHalves(hs: seq<nat>): (s: seq<byte>)
    requires forall i :: 0 <= i < |hs| ==> hs[i] < HALF
    ensures |s| == 2 * |hs|
  {
    if hs == [] then [] else [hs[0] % 256, hs[0] / 256] + EncodeHalves(hs[1..])
  }

  /** Names and data are filled up to an even length. */
  function Padding(n: nat): (s: seq<byte>)
    ensures |s| == n % 2
  {
    if n % 2 == 1 then [0] else []
  }

  function HeaderHalves(e: Entry, name: nat): (hs: seq<nat>)
    ensures |hs| == 13
  {
    [0x71C7, e.dev, e.ino, e.mode, e.uid, e.gid, e.nlink, e.rdev, e.mtime / HALF, e.mtime % HALF,
     name, |e.data| / HALF, |e.data| % HALF]
  }

  function EncodeEntry(e: Entry): (s: seq<byte>)
    requires EntryOk(e)
  {
    var name := Join(e.path) + [0];
    EncodeHalves(HeaderHalves(e, |name|)) + (name + (Padding(|name|) + (e.data + Padding(|e.data|))))
  }

  function EncodeTrailer(): seq<byte> {
    EncodeHalves([0x71C7, 0, 0, 0, 0, 0, 1, 0, 0, 0, 11, 0, 0]) + (TrailerName() + [0, 0])
  }

  predicate AllOk(es: seq<Entry>) {
    forall k :: 0 <= k < |es| ==> EntryOk(es[k])
  }

  function Archive(es: seq<Entry>): seq<byte>
    requires AllOk(es)
  {
    if es == [] then EncodeTrailer() else EncodeEntry(es[0]) + Archive(es[1..])
  }

  // ----- Reading one entry -----

  function Half(s: seq<byte>, at: nat): (h: nat)
    requires at + 2 <= |s|
    ensures h < HALF
  {
    var lo: int, hi: int := s[at], s[at + 1];
    lo + 256 * hi
  }

  function Word(s: seq<byte>, at: nat): (w: nat)
    requires at + 4 <= |s|
    ensures w < WORD
  {
    Half(s, at) + HALF * Half(s, at + 2)
  }

  /** CPIO2LE: the more significant half comes first. */
  function SwapHalves(w: nat): (r: nat)
    requires w < WORD
    ensures r < WORD
  {
    w % HALF * HALF + w / HALF
  }

  /** The string at `at`, unless the image ends before its terminator. */
  function StringAt(s: seq<byte>, at: nat): (r: Option<seq<byte>>)
    decreases |s| - at
  {
    if at >= |s| then None
    else if s[at] == 0 then Some([])
    else
      var r := StringAt(s, at + 1);
      if r.Some? then Some([s[at]] + r.value) else None
  }

  /** What stands at a place of the image. */
  datatype Found =
    | PastEnd
    | BadMagic
    | Trailer
    | File(name: seq<byte>, mode: nat, uid: nat, gid: nat, mtime: nat, size: nat, data: nat, next: nat)

  function EntryAt(s: seq<byte>, at: nat): (r: Found)
    ensures r.File? ==> at < r.next && at < |s|
  {
    if at + HEADER > |s| then PastEnd
    else if Half(s, at) != MAGIC then BadMagic
    else
      var name := StringAt(s, at + HEADER);
      if name.None? then PastEnd
      else if name.value == TRAILER then Trailer
      else
        var namesize, size := Half(s, at + 20), SwapHalves(Word(s, at + 22));
        var data := at + HEADER + namesize + namesize % 2;
        File(name.value, Half(s, at + 6), Half(s, at + 8), Half(s, at + 10), SwapHalves(Word(s, at + 16)),
             size, data, data + size + size % 2)
  }

  // ----- Names -----

  /** One past the last separator, 0 if there is none. */
  function AfterSlash(s: seq<byte>): (k: nat)
    ensures k <= |s| && (k > 0 ==> s[k - 1] == SLASH)
    ensures forall i :: k <= i < |s| ==> s[i] != SLASH
  {
    if s == [] then 0 else if s[|s| - 1] == SLASH then |s| else AfterSlash(s[..|s| - 1])
  }

  /** The scan that dirname and basename share. */
  method ScanSlash(s: seq<byte>) returns (k: nat)
    ensures k == AfterSlash(s)
  {
    k := 0;
    var i := 0;
    while i < |s|
      invariant 0 <= i <= |s| && k == AfterSlash(s[..i])
    {
      assert s[..i + 1][..i] == s[..i];
      if s[i] == SLASH { k := i + 1; }
      i := i + 1;
    }
    assert s[..i] == s;
  }

  function BaseName(s: seq<byte>): seq<byte> {
    s[AfterSlash(s)..]
  }

  function DirName(s: seq<byte>): seq<byte> {
    var k := AfterSlash(s);
    if k == 0 then [DOT] else s[..k - 1]
  }

  function Shortened(name: seq<byte>): seq<byte> {
    if |name| > FILE_NAME_MAX then name[..FILE_NAME_MAX] else name
  }

  /** The file type bits of a mode, as the tree's flags. */
  function Flags(mode: nat): nat {
    match mode / 0x1000 % 16
    case 10 => 32
    case 8 => 1
    case 6 => 8
    case 4 => FS_DIR
    case 2 => 4
    case 1 => 16
    case _ => 0
  }

  // ----- The mount -----

  function FileOf(f: Found): Node
    requires f.File?
  {
    Node(BaseName(Shortened(f.name)), f.size, f.data, f.uid, f.gid, f.mode % 0x1000, Flags(f.mode), f.mtime, None, [])
  }

  /** The directory a file goes to: the root when its own is missing. */
  function Home(t: Tree, m: nat, name: seq<byte>): (d: nat)
    requires Valid(t) && m < |t|
    ensures d < |t|
  {
    var r := FindFile(t, Some(m), DirName(Shortened(name)));
    if r.Some? then r.value else 0
  }

  /** How a mount ends; PastEnd stands for reading beyond the image. */
  function Mount(s: seq<byte>, at: nat, t: Tree, m: nat): (r: (Tree, Found))
    requires Valid(t) && m < |t|
    ensures Valid(r.0) && |t| <= |r.0|
    decreases |s| - at
  {
    var f := EntryAt(s, at);
    if f.File? then Mount(s, f.next, Added(t, FileOf(f), Home(t, m, f.name)), m) else (t, f)
  }

  /** initrd_mount of an image that is not compressed; also the number of files mounted. */
  method InitrdMount(fs: FileSystem, s: seq<byte>, m: nat) returns (n: nat, end: Found)
    requires Valid(fs.nodes) && m < |fs.nodes|
    modifies fs
    ensures Valid(fs.nodes) && n == |fs.nodes| - old(|fs.nodes|)
    ensures (fs.nodes, end) == Mount(s, 0, old(fs.nodes), m)
  {
    hide EntryAt, Added, FileOf, FindFile;
    var at := 0;
    n := 0;
    while true
      invariant Valid(fs.nodes) && m < |fs.nodes| && n == |fs.nodes| - old(|fs.nodes|)
      invariant Mount(s, at, fs.nodes, m) == Mount(s, 0, old(fs.nodes), m)
      decreases |s| - at
    {
      end := EntryAt(s, at);
      if !end.File? { return; }
      EntryAdvances(s, at);
      var fname := Shortened(end.name);
      var k := ScanSlash(fname);
      var path := if k == 0 then [DOT] else fname[..k - 1];
      var dir := FindFile(fs.nodes, Some(m), path);
      if dir.None? { dir := Some(0); }
      var inode := fs.AddFile(FileOf(end), dir);
      at := end.next;
      n := n + 1;
    }
  }

  lemma {:induction false} EntryAdvances(s: seq<byte>, at: nat)
    requires EntryAt(s, at).File?
    ensures at < EntryAt(s, at).next && at < |s|
  {
  }
}
