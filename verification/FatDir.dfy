/** Walking a directory table: dir_sdi, dir_next, dir_clear and dir_alloc. */
module FatDir {
  import opened FatBytes
  import opened FatTable
  import opened FatVolume
  import opened FatChain
  import opened FatAlloc
  import opened FatLayout
  import opened FatCursor
  import opened FatState
  import opened DirTable

  /** The walk towards an offset has passed `i` clusters and has `ofs` left to go. The countdown only keeps proofs
      from looking inside where WalkedIs is not called. */
  predicate WalkedAfter(csize: nat, target: nat, i: nat, ofs: nat, countdown: nat)
    requires 0 < csize
  {
    if countdown > 0 then WalkedAfter(csize, target, i, ofs, countdown - 1)
    else
      && ClusterIx(csize, target / 512) == i + ClusterIx(csize, ofs / 512)
      && SectorIn(csize, target / 512) == SectorIn(csize, ofs / 512) && ofs % 512 == target % 512
  }

  predicate Walked(csize: nat, target: nat, i: nat, ofs: nat)
    requires 0 < csize
  {
    WalkedAfter(csize, target, i, ofs, ofs)
  }

  lemma {:induction false} WalkedIs(csize: nat, target: nat, i: nat, ofs: nat, countdown: nat)
    requires 0 < csize
    ensures (WalkedAfter(csize, target, i, ofs, countdown) <==>
      && ClusterIx(csize, target / 512) == i + ClusterIx(csize, ofs / 512)
      && SectorIn(csize, target / 512) == SectorIn(csize, ofs / 512) && ofs % 512 == target % 512)
  {
    if countdown > 0 {
      WalkedIs(csize, target, i, ofs, countdown - 1);
    }
  }

  lemma WalkStarts(csize: nat, target: nat)
    requires 0 < csize
    ensures Walked(csize, target, 0, target)
  {
    WalkedIs(csize, target, 0, target, target);
  }

  /** Going over whole clusters, cluster by cluster. */
  lemma WalkOn(csize: nat, target: nat, i: nat, ofs: nat)
    requires 0 < csize && csize * 512 <= ofs && Walked(csize, target, i, ofs)
    ensures Walked(csize, target, i + 1, ofs - csize * 512) && i < ClusterIx(csize, target / 512)
  {
    var left := ofs - csize * 512;
    WalkedIs(csize, target, i, ofs, ofs);
    WalkedIs(csize, target, i + 1, left, left);
    assert ofs == 512 * (ofs / 512) + ofs % 512;
    assert left == 512 * (ofs / 512 - csize) + ofs % 512;
  }

  lemma WalkEnd(csize: nat, target: nat, i: nat, ofs: nat)
    requires 0 < csize && ofs < csize * 512 && Walked(csize, target, i, ofs)
    ensures i == ClusterIx(csize, target / 512) && ofs / 512 == SectorIn(csize, target / 512)
  {
    WalkedIs(csize, target, i, ofs, ofs);
  }

  /** What a filled run of sectors behind the FATs shows. */
  lemma {:induction false} ViewFilled(g: VolumeGeometry, d: Disk, a: nat, n: nat, z: Sector)
    requires |d| == g.sectors && RestBase(g) <= a && a + n <= |d|
    ensures |ViewOf(g, d).rest| == g.sectors - RestBase(g)
    ensures ViewOf(g, Filled(d, a, n, z)) == ViewOf(g, d).(rest := Filled(ViewOf(g, d).rest, a - RestBase(g), n, z))
  {
    ViewSizes(g, d);
    if n > 0 {
      ViewFilled(g, d, a, n - 1, z);
      ViewRest(g, Filled(d, a, n - 1, z), a + n - 1, z);
    }
  }

  lemma FilledMirror(g: VolumeGeometry, d: Disk, a: nat, n: nat, z: Sector)
    requires |d| == g.sectors && RestBase(g) <= a && a + n <= |d| && Mirrored(g, d, -1)
    ensures g.nFats == 2 ==> Mirrored(g, Filled(d, a, n, z), -1)
  {
    if g.nFats == 2 {
      var d' := Filled(d, a, n, z);
      forall s | InFat1(g, s) && s != -1 && s + g.fsize < |d'| ensures d'[s] == d'[s + g.fsize] {
        FilledAt(d, a, n, z, s);
        FilledAt(d, a, n, z, s + g.fsize);
      }
    }
  }

  /** dir_clear: a cluster filled with zeros, and the window on its first sector. */
  method DirClear(fs: Volume, clst: nat) returns (res: FResult)
    requires fs.Valid() && 2 <= clst < fs.g.nFatent
    modifies fs`disk, fs`wflag, fs`mirrorLost, fs`win, fs`winsect
    ensures |old(fs.Image()).rest| == fs.g.sectors - RestBase(fs.g)
    ensures res == FR_OK ==>
              && fs.Valid()
              && fs.Image() == old(fs.Image()).(rest := FilledCluster(fs.g, old(fs.Image()).rest, clst, ZERO_SECTOR))
    ensures res != FR_OK ==> res == FR_DISK_ERR
  {
    ViewSizes(fs.g, fs.Logical());
    res := fs.SyncWindow();
    if res != FR_OK {
      return;
    }
    ghost var d := fs.disk;
    fs.ValidIs();
    FirstSector(fs.g, clst);
    ClusterFits(fs.g, clst);
    var first := Clst2Sect(fs.g, clst);
    fs.winsect := first;
    fs.win := ZERO_SECTOR;
    var ok := WriteEach(fs, first);
    res := if ok then FR_OK else FR_DISK_ERR;
    if ok {
      Cleared(fs.g, d, clst, ZERO_SECTOR, !fs.mirrorLost);
      fs.ValidIs();
    }
  }

  /** The window written to every sector of a cluster, until a write fails. */
  method WriteEach(fs: Volume, first: nat) returns (ok: bool)
    requires |fs.disk| == fs.g.sectors && first + fs.g.csize <= fs.g.sectors
    modifies fs`disk
    ensures |fs.disk| == fs.g.sectors
    ensures ok ==> fs.disk == Filled(old(fs.disk), first, fs.g.csize, fs.win)
  {
    var n := 0;
    ok := true;
    while n < fs.g.csize && ok
      invariant && n <= fs.g.csize && |fs.disk| == fs.g.sectors
                && (ok ==> fs.disk == Filled(old(fs.disk), first, n, fs.win))
      decreases fs.g.csize - n, ok
    {
      ok := fs.DiskWrite(fs.win, first + n);
      if ok {
        n := n + 1;
      }
    }
  }

  /** A drive with a cluster filled, seen through a clean window on it. */
  lemma Cleared(g: VolumeGeometry, d: Disk, clst: nat, z: Sector, mirrored: bool)
    requires |d| == g.sectors && 2 <= clst < g.nFatent && (g.nFats == 2 && mirrored ==> Mirrored(g, d, -1))
    ensures && RestBase(g) <= ClusterBase(g, clst) && ClusterBase(g, clst) + g.csize <= |d|
            && |ViewOf(g, d).rest| == g.sectors - RestBase(g)
    ensures var d' := Filled(d, ClusterBase(g, clst), g.csize, z);
            && d'[ClusterBase(g, clst)] == z && (g.nFats == 2 && mirrored ==> Mirrored(g, d', -1))
            && ViewOf(g, d') == ViewOf(g, d).(rest := FilledCluster(g, ViewOf(g, d).rest, clst, z))
  {
    ClusterFits(g, clst);
    var first := ClusterBase(g, clst);
    FilledAt(d, first, g.csize, z, first);
    if g.nFats == 2 && mirrored {
      FilledMirror(g, d, first, g.csize, z);
    }
    ViewFilled(g, d, first, g.csize, z);
  }

  /** Where the walk along a chain ends. */
  lemma Located(g: VolumeGeometry, chain: seq<nat>, j: nat, c: nat)
    requires Proper(g, chain) && HasSector(g, chain, j) && c == chain[ClusterIx(g.csize, j)]
    ensures 0 < Clst2Sect(g, c) && Clst2Sect(g, c) + SectorIn(g.csize, j) == RestBase(g) + Lba(g, chain, j)
  {
    ProperAt(g, chain, ClusterIx(g.csize, j));
    FirstSector(g, c);
    ClusterFits(g, c);
  }

  /** What create_chain behind the end of a chain may come back with. */
  lemma CreatedBehind(g: VolumeGeometry, f: seq<nat>, clst: nat, r: nat, f': seq<nat>)
    requires |f| == g.nFatent && IsCluster(f, clst) && f[clst] >= |f| && CreateOutcome(g, f, clst, r, f')
    ensures r != 1 && (r == 0 ==> f' == f && FreeCount(f) == 0)
    ensures r != 0 && r != DISK_ERROR ==>
              IsCluster(f, r) && f[r] == 0 && f' == Appended(f, clst, r, EndMarkOf(g.fatType))
  {
  }

  /** The table with the new cluster behind it. */
  lemma StretchDescribes(g: VolumeGeometry, f: seq<nat>, t: Table, start: nat, n: nat, f': seq<nat>)
    requires Describes(g, f, t, start) && t.Chained? && |t.chain| > 0 && IsCluster(f, n) && f[n] == 0
    requires && IsCluster(f, t.chain[|t.chain| - 1])
             && f' == Appended(f, t.chain[|t.chain| - 1], n, EndMarkOf(g.fatType)) && WellFormed(f')
    ensures Describes(g, f', Chained(t.chain + [n]), start) && ProperTable(g, Chained(t.chain + [n]))
  {
    DescribesIs(g, f, t, start);
    MaskedValues(g, 0);
    AppendChains(f, t.chain[|t.chain| - 1], n, EndMarkOf(g.fatType), t.chain);
    ChainDescribes(g, f', t.chain + [n]);
    DescribesKind(g, f', Chained(t.chain + [n]), start);
  }

  /** A table as it was, or with a filled cluster behind it. */
  predicate Grew(g: VolumeGeometry, t: Table, rest: Disk, t': Table, rest': Disk, n: nat, z: Sector) {
    if n == 0 then t' == t && rest' == rest
    else
      && t.Chained? && t.chain != [] && Proper(g, t.chain + [n]) && 2 <= n < g.nFatent
      && |rest| == g.sectors - RestBase(g)
      && t' == Chained(t.chain + [n]) && rest' == FilledCluster(g, rest, n, z)
  }

  /** A table as it was, or with filled clusters put behind it one after another. */
  ghost predicate GrewBy(g: VolumeGeometry, t: Table, rest: Disk, t': Table, rest': Disk, ns: seq<nat>, z: Sector)
    decreases |ns|
  {
    if ns == [] then t' == t && rest' == rest
    else
      && t.Chained? && t.chain != [] && Proper(g, t.chain + [ns[0]]) && 2 <= ns[0] < g.nFatent
      && |rest| == g.sectors - RestBase(g)
      && GrewBy(g, Chained(t.chain + [ns[0]]), FilledCluster(g, rest, ns[0], z), t', rest', ns[1..], z)
  }

  lemma {:induction false} GrewMore(g: VolumeGeometry, t: Table, rest: Disk, t1: Table, rest1: Disk, ns: seq<nat>,
      t2: Table, rest2: Disk, n: nat, z: Sector)
    requires GrewBy(g, t, rest, t1, rest1, ns, z) && Grew(g, t1, rest1, t2, rest2, n, z)
    ensures GrewBy(g, t, rest, t2, rest2, if n == 0 then ns else ns + [n], z)
    decreases |ns|
  {
    if ns != [] {
      GrewMore(g, Chained(t.chain + [ns[0]]), FilledCluster(g, rest, ns[0], z), t1, rest1, ns[1..], t2, rest2, n, z);
      assert (ns + [n])[1..] == ns[1..] + [n];
    } else {
      assert [n][1..] == [];
    }
  }

  /** The entries that were in the table are in it as they were, and those that are new begin as the filling does. */
  lemma {:induction false} GrownMarks(g: VolumeGeometry, t: Table, rest: Disk, t': Table, rest': Disk, ns: seq<nat>,
      z: Sector, k: nat)
    requires GrewBy(g, t, rest, t', rest', ns, z) && ProperTable(g, t) && |rest| == g.sectors - RestBase(g)
    ensures ProperTable(g, t') && |rest'| == |rest|
    ensures HasPart(g, t, k / 16) ==> HasPart(g, t', k / 16) && Mark(g, rest', t', k) == Mark(g, rest, t, k)
    ensures HasPart(g, t', k / 16) && !HasPart(g, t, k / 16) ==> Mark(g, rest', t', k) == z[k % 16 * ENTRY_SIZE]
    decreases |ns|
  {
    if ns != [] {
      var n := ns[0];
      var t1, rest1 := Chained(t.chain + [n]), FilledCluster(g, rest, n, z);
      GrownMarks(g, t1, rest1, t', rest', ns[1..], z, k);
      if HasPart(g, t, k / 16) {
        MarkKept(g, rest, t.chain, n, z, k);
      } else if HasPart(g, t1, k / 16) {
        MarkNew(g, rest, t.chain, n, z, k);
      }
    }
  }

  /** Every table has a first entry. */
  lemma FirstSlot(g: VolumeGeometry, t: Table)
    requires ProperTable(g, t) && (t.Static? ==> g.fatType != FAT32)
    ensures InTable(g, t, 0)
  {
    InTableIs(g, t, 0);
  }

  class Dir {
    const fs: Volume
    const sclust: nat  // first cluster of the table, 0 for the root
    var dptr: nat
    var clust: nat
    var sect: nat
    ghost var table: Table

    function Start(): nat {
      if sclust == 0 && fs.g.fatType == FAT32 then fs.g.dirbase else sclust
    }

    ghost predicate Valid()
      reads this, fs
    {
      fs.Valid() && CountOk(fs) && Describes(fs.g, fs.Fat(), table, Start())
    }

    function Here(): Place
      reads this
    {
      Place(dptr, clust, sect)
    }

    /** The directory object is at entry `k`. */
    ghost predicate At(k: nat)
      reads this
    {
      IsPlace(fs.g, table, k, Here())
    }

    constructor (fs: Volume, sclust: nat, ghost table: Table)
      requires && fs.Valid() && CountOk(fs)
               && Describes(fs.g, fs.Fat(), table,
                      if sclust == 0 && fs.g.fatType == FAT32 then fs.g.dirbase else sclust)
      ensures Valid() && this.fs == fs && this.sclust == sclust && this.table == table
    {
      this.fs, this.sclust, this.table := fs, sclust, table;
      dptr, clust, sect := 0, 0, 0;
    }

    /** One step along the chain. */
    method Follow(c: nat, ghost i: nat) returns (next: nat)
      requires Valid() && table.Chained? && i < |table.chain| && c == table.chain[i]
      modifies fs`disk, fs`wflag, fs`mirrorLost, fs`win, fs`winsect
      ensures Valid() && fs.Image() == old(fs.Image())
      ensures || next == DISK_ERROR
              || (if i + 1 < |table.chain| then next == table.chain[i + 1] && 2 <= next < fs.g.nFatent
                  else next >= fs.g.nFatent)
    {
      LinkBehind(fs.g, fs.Fat(), table, Start(), i);
      next := fs.GetFat(c);
    }

    /** The cluster of an offset and its sector, found along the chain from the first cluster. */
    method WalkTo(target: nat) returns (res: FResult, c: nat, s: nat)
      requires Valid() && table.Chained? && ProperTable(fs.g, table) && table.chain[0] == Start()
      modifies fs`disk, fs`wflag, fs`mirrorLost, fs`win, fs`winsect
      ensures Valid() && fs.Image() == old(fs.Image())
      ensures res == FR_OK || res == FR_DISK_ERR || res == FR_INT_ERR
      ensures res == FR_OK ==>
                HasSector(fs.g, table.chain, target / 512) && c == table.chain[ClusterIx(fs.g.csize, target / 512)]
      ensures res == FR_OK ==> s == RestBase(fs.g) + Lba(fs.g, table.chain, target / 512)
      ensures res == FR_INT_ERR ==> !HasSector(fs.g, table.chain, target / 512)
    {
      var csz := fs.g.csize * 512;
      ghost var i: nat := 0;
      var ofs: nat;
      c, ofs, s := Start(), target, 0;
      WalkStarts(fs.g.csize, target);
      while ofs >= csz
        invariant Valid() && fs.Image() == old(fs.Image()) && i < |table.chain| && c == table.chain[i]
        invariant Walked(fs.g.csize, target, i, ofs)
        decreases ofs
      {
        WalkOn(fs.g.csize, target, i, ofs);
        c := Follow(c, i);
        if c == DISK_ERROR {
          return FR_DISK_ERR, c, s;
        }
        if c < 2 || c >= fs.g.nFatent {
          return FR_INT_ERR, c, s;
        }
        ofs := ofs - csz;
        i := i + 1;
      }
      WalkEnd(fs.g.csize, target, i, ofs);
      Located(fs.g, table.chain, target / 512, c);
      s := Clst2Sect(fs.g, c);
      res := FR_INT_ERR;
      if s != 0 {
        s := s + ofs / 512;
        res := FR_OK;
      }
    }

    /** The cluster and sector of an offset of the table. */
    method Find(target: nat) returns (res: FResult, c: nat, s: nat)
      requires Valid() && target < MAX_DIR && target % ENTRY_SIZE == 0
      modifies fs`disk, fs`wflag, fs`mirrorLost, fs`win, fs`winsect
      ensures Valid() && fs.Image() == old(fs.Image())
      ensures res == FR_OK ==>
                InTable(fs.g, table, target) && IsPlace(fs.g, table, target / ENTRY_SIZE, Place(target, c, s))
      ensures res == FR_INT_ERR ==> !InTable(fs.g, table, target)
      ensures res == FR_OK || res == FR_INT_ERR || res == FR_DISK_ERR
    {
      c, s := Start(), 0;
      DescribesKind(fs.g, fs.Fat(), table, c);
      if c == 0 {
        StaticPlace(fs.g, target);
        res := FR_INT_ERR;
        if target / ENTRY_SIZE < fs.g.nRootdir {
          s := fs.g.dirbase + target / 512;
          res := FR_OK;
        }
      } else {
        ChainedPlace(fs.g, table.chain, target);
        res, c, s := WalkTo(target);
      }
    }

    /** dir_sdi: the directory object set to an offset, by walking the chain from its start. */
    method Sdi(target: nat) returns (res: FResult)
      requires Valid()
      modifies `dptr, `clust, `sect, fs`disk, fs`wflag, fs`mirrorLost, fs`win, fs`winsect
      ensures Valid() && fs.Image() == old(fs.Image())
      ensures res == FR_OK ==> InTable(fs.g, table, target) && At(target / ENTRY_SIZE)
      ensures res == FR_INT_ERR ==> !InTable(fs.g, table, target)
      ensures res == FR_OK || res == FR_INT_ERR || res == FR_DISK_ERR
    {
      if target >= MAX_DIR || target % ENTRY_SIZE != 0 {
        InTableIs(fs.g, table, target);
        return FR_INT_ERR;
      }
      var c, s;
      res, c, s := Find(target);
      dptr := target;
      if res == FR_OK {
        clust, sect := c, s;
      }
    }

    /** A zeroed cluster put behind the table. */
    method StretchTable() returns (res: FResult, c: nat)
      requires Valid() && table.Chained? && |table.chain| > 0 && clust == table.chain[|table.chain| - 1]
      modifies `table, fs
      ensures res == FR_OK || res == FR_DENIED || res == FR_INT_ERR || res == FR_DISK_ERR
      ensures res == FR_OK ==>
                && Valid() && Grew(fs.g, old(table), old(fs.Image()).rest, table, fs.Image().rest, c, ZERO_SECTOR)
                && c != 0
      ensures res == FR_DENIED ==>
                Valid() && table == old(table) && fs.Image().rest == old(fs.Image()).rest && FreeCount(fs.Fat()) == 0
      ensures res != FR_INT_ERR
    {
      ghost var f, start := fs.Fat(), Start();
      LinkBehind(fs.g, f, table, start, |table.chain| - 1);
      DescribesKind(fs.g, f, table, start);
      c := CreateChain(fs, clust);
      CreatedBehind(fs.g, f, clust, c, fs.Fat());
      if c < 2 {
        res := if c == 0 then FR_DENIED else FR_INT_ERR;
      } else if c == DISK_ERROR {
        res := FR_DISK_ERR;
      } else {
        StretchDescribes(fs.g, f, table, start, c, fs.Fat());
        res := DirClear(fs, c);
        table := Chained(table.chain + [c]);
      }
    }

    /** The next cluster of the table, stretching it if asked. */
    method NextCluster(stretch: bool, ghost i: nat) returns (res: FResult, c: nat, ghost n: nat)
      requires Valid() && table.Chained? && i < |table.chain| && clust == table.chain[i]
      modifies `table, fs
      ensures res == FR_OK || res == FR_DENIED || res == FR_NO_FILE || res == FR_DISK_ERR
      ensures !stretch || i + 1 < |old(table).chain| ==> Valid() && table == old(table) && fs.Image() == old(fs.Image())
      ensures res == FR_OK ==>
                Valid() && Grew(fs.g, old(table), old(fs.Image()).rest, table, fs.Image().rest, n, ZERO_SECTOR)
      ensures res == FR_OK ==> i + 1 < |table.chain| && c == table.chain[i + 1] && 2 <= c < fs.g.nFatent
      ensures i + 1 < |old(table).chain| ==> n == 0 && (res == FR_OK || res == FR_DISK_ERR)
      ensures res == FR_NO_FILE ==> !stretch
      ensures res == FR_DENIED ==>
                && stretch && Valid() && table == old(table) && fs.Image().rest == old(fs.Image()).rest
                && FreeCount(fs.Fat()) == 0
    {
      n := 0;
      LinkBehind(fs.g, fs.Fat(), table, Start(), i);
      c := Follow(clust, i);
      res := if c <= 1 then FR_INT_ERR else if c == DISK_ERROR then FR_DISK_ERR else FR_OK;
      if res == FR_OK && c >= fs.g.nFatent {
        if !stretch {
          res := FR_NO_FILE;
        } else {
          res, c := StretchTable();
          n := c;
        }
      }
    }

    /** To the next cluster of the table, which starts with the entry asked for. */
    method EnterCluster(stretch: bool, ghost k: nat, ghost p: Place) returns (res: FResult, ghost n: nat)
      requires && Valid() && table.Chained? && IsPlace(fs.g, table, k, p) && clust == p.clust
               && ENTRY_SIZE * (k + 1) < MAX_DIR
      requires ENTRY_SIZE * (k + 1) % 512 == 0 && ENTRY_SIZE * (k + 1) / 512 % fs.g.csize == 0
      modifies `clust, `sect, `table, fs
      ensures res == FR_OK || res == FR_DENIED || res == FR_NO_FILE || res == FR_DISK_ERR
      ensures !stretch || InTable(fs.g, old(table), ENTRY_SIZE * (k + 1)) ==>
                Valid() && table == old(table) && fs.Image() == old(fs.Image())
      ensures res == FR_OK ==>
                Valid() && Grew(fs.g, old(table), old(fs.Image()).rest, table, fs.Image().rest, n, ZERO_SECTOR)
      ensures res == FR_OK ==>
                && InTable(fs.g, table, ENTRY_SIZE * (k + 1))
                && IsPlace(fs.g, table, k + 1, Place(ENTRY_SIZE * (k + 1), clust, sect))
      ensures InTable(fs.g, old(table), ENTRY_SIZE * (k + 1)) ==> n == 0 && (res == FR_OK || res == FR_DISK_ERR)
      ensures res == FR_NO_FILE ==> !stretch && sect == 0
      ensures res == FR_DENIED ==>
                && stretch && Valid() && table == old(table) && fs.Image().rest == old(fs.Image()).rest
                && FreeCount(fs.Fat()) == 0
    {
      ghost var i := ClusterIx(fs.g.csize, k / 16);
      StepCluster(fs.g, table, k, p);
      var c;
      res, c, n := NextCluster(stretch, i);
      if res == FR_OK {
        if n != 0 {
          PlaceKept(fs.g, old(table).chain, n, k, p);
        }
        StepCluster(fs.g, table, k, p);
        FirstSector(fs.g, c);
        clust := c;
        sect := Clst2Sect(fs.g, c);
      } else if res == FR_NO_FILE {
        sect := 0;
      }
    }

    /** To the next sector of the table, which starts with the entry asked for. */
    method EnterSector(stretch: bool, ofs: nat, ghost k: nat, ghost p: Place) returns (res: FResult, ghost n: nat)
      requires && Valid() && IsPlace(fs.g, table, k, p) && clust == p.clust && sect == p.sect
               && (clust == 0 <==> table.Static?)
      requires ofs == ENTRY_SIZE * (k + 1) < MAX_DIR && ofs % 512 == 0
      modifies `clust, `sect, `table, fs
      ensures res == FR_OK || res == FR_DENIED || res == FR_NO_FILE || res == FR_DISK_ERR
      ensures !stretch || InTable(fs.g, old(table), ofs) ==>
                Valid() && table == old(table) && fs.Image() == old(fs.Image())
      ensures res == FR_OK ==>
                Valid() && Grew(fs.g, old(table), old(fs.Image()).rest, table, fs.Image().rest, n, ZERO_SECTOR)
      ensures res == FR_OK ==> InTable(fs.g, table, ofs) && IsPlace(fs.g, table, k + 1, Place(ofs, clust, sect))
      ensures InTable(fs.g, old(table), ofs) ==> n == 0 && (res == FR_OK || res == FR_DISK_ERR)
      ensures res == FR_NO_FILE ==>
                && Valid() && sect == 0 && table == old(table) && fs.Image() == old(fs.Image())
                && (!stretch || table.Static?)
      ensures res == FR_DENIED ==>
                && stretch && Valid() && table == old(table) && fs.Image().rest == old(fs.Image()).rest
                && FreeCount(fs.Fat()) == 0
    {
      res, n := FR_OK, 0;
      sect := sect + 1;
      if clust == 0 {
        StepStatic(fs.g, k, p);
        if ofs / ENTRY_SIZE >= fs.g.nRootdir {
          sect := 0;
          res := FR_NO_FILE;
        }
      } else if ofs / 512 % fs.g.csize == 0 {
        res, n := EnterCluster(stretch, k, p);
      } else {
        StepSector(fs.g, table, k, p);
      }
    }

    /** dir_next: one entry on. It agrees with where the entry lies, in whatever part of the table that is; at the end
        of the table it either stops or stretches the table by a zeroed cluster. */
    method Next(stretch: bool, ghost k: nat) returns (res: FResult, ghost n: nat)
      requires Valid() && (sect == 0 || At(k))
      modifies this, fs
      ensures res == FR_OK || res == FR_DENIED || res == FR_NO_FILE || res == FR_DISK_ERR
      ensures !stretch || InTable(fs.g, old(table), ENTRY_SIZE * (k + 1)) ==>
                Valid() && table == old(table) && fs.Image() == old(fs.Image())
      ensures res == FR_OK ==>
                Valid() && Grew(fs.g, old(table), old(fs.Image()).rest, table, fs.Image().rest, n, ZERO_SECTOR)
      ensures res == FR_OK ==> InTable(fs.g, table, ENTRY_SIZE * (k + 1)) && At(k + 1)
      ensures old(sect) != 0 && InTable(fs.g, old(table), ENTRY_SIZE * (k + 1)) ==>
                n == 0 && (res == FR_OK || res == FR_DISK_ERR)
      ensures res == FR_NO_FILE ==>
                && Valid() && sect == 0 && table == old(table) && fs.Image() == old(fs.Image())
                && (!stretch || old(sect) == 0 || table.Static? || MAX_DIR <= ENTRY_SIZE * (k + 1))
      ensures res == FR_DENIED ==>
                && stretch && Valid() && table == old(table) && fs.Image().rest == old(fs.Image()).rest
                && FreeCount(fs.Fat()) == 0
    {
      n := 0;
      ghost var p := Here();
      var ofs := dptr + ENTRY_SIZE;
      if sect != 0 {
        PlaceKind(fs.g, table, k, p);
      }
      if ofs >= MAX_DIR {
        sect := 0;
        if p.sect != 0 {
          StepPast(fs.g, table, k);
        }
      }
      if sect == 0 {
        return FR_NO_FILE, 0;
      }
      res := FR_OK;
      if ofs % 512 == 0 {
        res, n := EnterSector(stretch, ofs, k, p);
      } else {
        StepWithin(fs.g, table, k, p);
      }
      if res == FR_OK {
        dptr := ofs;
      }
    }

    /** Stepping from the first entry to entry `k`. */
    method StepTo(k: nat) returns (res: FResult)
      requires Valid()
      modifies this, fs
      ensures Valid() && table == old(table) && fs.Image() == old(fs.Image())
      ensures res == FR_OK ==> InTable(fs.g, table, ENTRY_SIZE * k) && At(k)
      ensures res != FR_OK && res != FR_DISK_ERR ==> !InTable(fs.g, table, ENTRY_SIZE * k)
    {
      res := Sdi(0);
      ghost var n;
      var i: nat := 0;
      if InTable(fs.g, table, ENTRY_SIZE * k) {
        InTableBefore(fs.g, table, 0, k);
      }
      while res == FR_OK && i < k
        invariant Valid() && table == old(table) && fs.Image() == old(fs.Image()) && i <= k
        invariant res == FR_OK ==> InTable(fs.g, table, ENTRY_SIZE * i) && At(i)
        invariant res != FR_OK && res != FR_DISK_ERR ==> !InTable(fs.g, table, ENTRY_SIZE * k)
        decreases k - i, res == FR_OK
      {
        PlaceKind(fs.g, table, i, Here());
        if InTable(fs.g, table, ENTRY_SIZE * k) {
          InTableBefore(fs.g, table, i + 1, k);
        }
        res, n := Next(false, i);
        i := i + 1;
      }
    }

    /** Sequential and random access agree: stepping to an entry and going to it directly reach the same cluster and
        sector, or both find it outside the table. */
    method StepAndSeek(k: nat) returns (stepRes: FResult, stepped: Place, seekRes: FResult, sought: Place)
      requires Valid()
      modifies this, fs
      ensures Valid() && fs.Image() == old(fs.Image())
      ensures stepRes == FR_OK && seekRes == FR_OK ==> stepped == sought
      ensures stepRes != FR_DISK_ERR && seekRes != FR_DISK_ERR ==> (stepRes == FR_OK <==> seekRes == FR_OK)
    {
      stepRes := StepTo(k);
      stepped := Here();
      SlotOffset(k);
      seekRes := Sdi(ENTRY_SIZE * k);
      sought := Here();
      if stepRes == FR_OK && seekRes == FR_OK {
        PlaceUnique(fs.g, table, k, stepped, sought);
      }
    }

    /** The entry brought into the window and looked at. */
    method Visit(ghost k: nat) returns (res: FResult, free: bool)
      requires Valid() && At(k)
      modifies fs`disk, fs`wflag, fs`mirrorLost, fs`win, fs`winsect
      ensures Valid() && fs.Image() == old(fs.Image()) && (res == FR_OK || res == FR_DISK_ERR)
      ensures ProperTable(fs.g, table) && HasSlot(fs.g, table, k) && |fs.Image().rest| == fs.g.sectors - RestBase(fs.g)
      ensures res == FR_OK ==> free == FreeSlot(fs.g, fs.Image().rest, table, k)
    {
      PlaceKind(fs.g, table, k, Here());
      SlotOffset(k);
      res := fs.MoveWindow(sect);
      ViewSizes(fs.g, fs.Logical());
      ViewRest(fs.g, fs.Logical(), sect, fs.win);
      var mark := fs.win[dptr % 512];
      free := mark == DELETED || mark == 0;
    }

    /** The entries before this one have been looked at in vain; the last `n` of them are free. */
    ghost predicate Scanning(k: nat, n: nat, m: nat)
      reads this, fs
    {
      Valid() && At(k) && Searched(fs.g, fs.Image().rest, table, k, n, m)
    }

    /** The same, with no entry left, and none to be had: the table is the fixed one, no cluster is free, or it is as
        long as a directory can be. */
    ghost predicate Exhausted(k: nat, n: nat, m: nat)
      reads this, fs
    {
      && Valid() && !InTable(fs.g, table, ENTRY_SIZE * k) && Searched(fs.g, fs.Image().rest, table, k, n, m)
      && (table.Static? || FreeCount(fs.Fat()) == 0 || MAX_DIR <= ENTRY_SIZE * k)
    }

    /** dir_alloc: the first block of free entries of a length, with the directory object on its last entry; the table
        is stretched with zeroed clusters until there is one. */
    method Alloc(nEnt: nat) returns (res: FResult, ghost k: nat, ghost left: nat, ghost added: seq<nat>)
      requires Valid() && 0 < nEnt
      modifies this, fs
      ensures res == FR_OK ==> Valid() && At(k) && FoundBlock(fs.g, fs.Image().rest, table, k, nEnt)
      ensures res == FR_OK || res == FR_DENIED ==>
                && fs.Valid()
                && GrewBy(fs.g, old(table), old(fs.Image()).rest, table, fs.Image().rest, added, ZERO_SECTOR)
      ensures res == FR_DENIED ==> Exhausted(k, left, nEnt)
      ensures res == FR_OK || res == FR_DENIED || res == FR_DISK_ERR
    {
      k, left, added := 0, 0, [];
      res := AllocStart(nEnt);
      var n: nat, found := 0, false;
      while res == FR_OK && !found
        invariant res == FR_OK && !found ==> Scanning(k, n, nEnt) && n < nEnt
        invariant res == FR_OK && found ==> Valid() && At(k) && FoundBlock(fs.g, fs.Image().rest, table, k, nEnt)
        invariant res == FR_DENIED || res == FR_NO_FILE ==> Exhausted(k, n, nEnt)
        invariant res == FR_OK || res == FR_DENIED || res == FR_NO_FILE || res == FR_DISK_ERR
        invariant res != FR_DISK_ERR ==>
                    && fs.Valid()
                    && GrewBy(fs.g, old(table), old(fs.Image()).rest, table, fs.Image().rest, added, ZERO_SECTOR)
        decreases res == FR_OK, !found, MAX_DIR - dptr
      {
        ghost var t, rest, c := table, fs.Image().rest, 0;
        res, found, n, k, c := AllocStep(n, nEnt, k);
        if res != FR_DISK_ERR {
          GrewMore(fs.g, old(table), old(fs.Image()).rest, t, rest, added, table, fs.Image().rest, c, ZERO_SECTOR);
          added := if c == 0 then added else added + [c];
        }
      }
      left := n;
      if res == FR_NO_FILE {
        res := FR_DENIED;
      }
    }

    method AllocStart(ghost m: nat) returns (res: FResult)
      requires Valid() && 0 < m
      modifies this, fs
      ensures || (res == FR_OK && Scanning(0, 0, m) && table == old(table) && fs.Image() == old(fs.Image()))
              || res == FR_DISK_ERR
    {
      ViewSizes(fs.g, fs.Logical());
      DescribesKind(fs.g, fs.Fat(), table, Start());
      FirstSlot(fs.g, table);
      SearchStarts(fs.g, fs.Image().rest, table, m);
      res := Sdi(0);
    }

    /** One entry looked at: it completes a block, or the search goes on behind it. */
    method AllocStep(free: nat, nEnt: nat, ghost k: nat)
        returns (res: FResult, found: bool, n: nat, ghost k': nat, ghost c: nat)
      requires Scanning(k, free, nEnt) && free < nEnt
      modifies this, fs
      ensures res == FR_OK && !found ==> Scanning(k', n, nEnt) && n < nEnt && dptr == old(dptr) + ENTRY_SIZE < MAX_DIR
      ensures res == FR_OK && found ==> Valid() && At(k') && FoundBlock(fs.g, fs.Image().rest, table, k', nEnt)
      ensures res == FR_DENIED || res == FR_NO_FILE ==> Exhausted(k', n, nEnt)
      ensures res == FR_OK || res == FR_DENIED || res == FR_NO_FILE || res == FR_DISK_ERR
      ensures res != FR_DISK_ERR ==>
                fs.Valid() && Grew(fs.g, old(table), old(fs.Image()).rest, table, fs.Image().rest, c, ZERO_SECTOR)
    {
      found, n, k', c := false, free, k, 0;
      var isFree;
      res, isFree := Visit(k);
      if res == FR_OK {
        LookedOn(fs.g, fs.Image().rest, table, k, free, nEnt);
        n := if isFree then n + 1 else 0;
        found := n == nEnt;
        if !found {
          res, k', c := Advance(k, n, nEnt);
        }
      }
    }

    /** One entry on, keeping what is known of the entries looked at. */
    method Advance(ghost i: nat, ghost n: nat, ghost m: nat) returns (res: FResult, ghost k: nat, ghost c: nat)
      requires Valid() && At(i) && Searched(fs.g, fs.Image().rest, table, i + 1, n, m)
      modifies this, fs
      ensures k == i + 1 && (res == FR_OK || res == FR_DENIED || res == FR_NO_FILE || res == FR_DISK_ERR)
      ensures res == FR_OK ==> Scanning(k, n, m) && dptr == old(dptr) + ENTRY_SIZE < MAX_DIR
      ensures res == FR_DENIED || res == FR_NO_FILE ==> Exhausted(k, n, m)
      ensures res != FR_DISK_ERR ==>
                fs.Valid() && Grew(fs.g, old(table), old(fs.Image()).rest, table, fs.Image().rest, c, ZERO_SECTOR)
    {
      k := i + 1;
      ghost var rest, t := fs.Image().rest, table;
      ViewSizes(fs.g, fs.Logical());
      PlaceKind(fs.g, table, i, Here());
      res, c := Next(true, i);
      if res == FR_OK {
        PlaceKind(fs.g, table, k, Here());
        if c != 0 {
          SearchKept(fs.g, rest, t.chain, c, ZERO_SECTOR, k, n, m);
        }
      } else {
        c := 0;
      }
    }
  }
}
