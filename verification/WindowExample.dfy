/** A state, reached from start-up, in which a copy's window hides the caller's buffer. */
module WindowExample {
  import opened Options
  import opened Arith
  import opened PageTables
  import opened PageMaps
  import opened Machine

  /** A buffer at page 1500, in frame 3000, and a page 1600 that leads to frame 1500. */
  const Setup: seq<PageOp> := [Map(1500, 3000, true, false), Map(1600, 1500, true, false)]

  lemma {:induction false} SetupNeedsOne(s: Sys, d: nat)
    requires IsTable(s, d)
    ensures UserOps(Setup) && Missing(s, d, Setup) <= 1
  {
    var one := Setup[..1];
    assert one == [Map(1500, 3000, true, false)] && Setup[..0] == [];
    assert one[0].Map? && DirIndex(one[0].page) == DirIndex(1600);
    assert Touched(one, DirIndex(1600));
    assert Missing(s, d, one) <= 1 by { assert one[..0] == []; }
  }

  lemma {:induction false} SetupIsFlat(m: Option<Mapping>, page: nat)
    ensures FlatRun(m, page, Setup) ==
            if page == 1500 then Some(Mapping(3000, true, true))
            else if page == 1600 then Some(Mapping(1500, true, true)) else m
  {
    var one := Setup[..1];
    assert one == [Map(1500, 3000, true, false)] && one[..0] == [];
    assert FlatRun(m, page, one) == if page == 1500 then Some(Mapping(3000, true, true)) else m;
  }

  /**
    Writing to page 1600 opens a window on frame 1500, at page 1500.  The first byte of a buffer
    there, which lies in frame 3000, is then read from frame 1500 instead.
    */
  lemma {:induction false} BufferIsHidden(kdir: nat, low: nat, high: nat, f: nat) returns (s: Sys, s': Sys)
    requires kdir != low && kdir != high && low != high && f != kdir && f != low && f != high
    ensures Ready(BootSys(kdir, low, high, [f]), {kdir}, kdir)
    ensures UserOps(Setup) && DirOk(BootSys(kdir, low, high, [f]), kdir)
    ensures Missing(BootSys(kdir, low, high, [f]), kdir, Setup) <= 1
    ensures s == Run(BootSys(kdir, low, high, [f]), {kdir}, kdir, Setup)
    ensures DirOk(s, kdir) && DirOk(s, s.kdir) && PoolOk(s) && CanMap(s, kdir, 1500)
    ensures Lookup(s, kdir, 1600) == Some(Mapping(1500, true, true))
    ensures s' == MapPage(s, kdir, 1500, 1500, true, true) && DirOk(s', kdir)
    ensures At(s, kdir, 1500 * PAGE_SZ, 0) == Some(3000 * PAGE_SZ)
    ensures At(s', kdir, 1500 * PAGE_SZ, 0) == Some(1500 * PAGE_SZ)
  {
    hide Lookup, Separate, PoolOk, Run, Missing, FlatRun, BootSys, MapPage;
    var boot := BootSys(kdir, low, high, [f]);
    BootIsReady(kdir, low, high, [f]);
    ReadyDir(boot, {kdir}, kdir);
    SetupNeedsOne(boot, kdir);
    BootPool(kdir, low, high, f);
    s := Run(boot, {kdir}, kdir, Setup);
    RunIsFlat(boot, {kdir}, kdir, Setup);
    SetupIsFlat(Lookup(boot, kdir, 1500), 1500);
    SetupIsFlat(Lookup(boot, kdir, 1600), 1600);
    ReadyParts(s, kdir);
    MappedIsThere(s, kdir, 1500);
    MapUserPage(s, {kdir}, kdir, 1500, 1500, true, true);
    s' := MapPage(s, kdir, 1500, 1500, true, true);
    ReadyParts(s', kdir);
  }

  lemma {:induction false} BootPool(kdir: nat, low: nat, high: nat, f: nat)
    ensures BootSys(kdir, low, high, [f]).pool == [f] && BootSys(kdir, low, high, [f]).kdir == kdir
  {
  }

  lemma {:induction false} ReadyParts(s: Sys, d: nat)
    requires Separate(s, {d}) && PoolOk(s)
    ensures DirOk(s, d) && DirOk(s, s.kdir) && s.kdir == d
  {
  }
}
