/** Mounting a drive: find_volume and mount_volume, and what a formatted drive is mounted as. */
module FatMount {
  import opened FatBytes
  import opened FatTable
  import opened FatVolume
  import opened FatChain
  import opened FatAlloc
  import opened FatPlan
  import opened FatBoot
  import opened FatEntry
  import opened FatFormat
  import opened FatLayout
  import opened DirTable

  datatype MountResult = MountOk | MountDiskError | NoFatVolume

  /** What mounting finds out: layout, the window's sector, allocation hint and free-cluster count, and whether there
      is a record that these two are kept in. */
  datatype Found = Found(g: Geometry, win: Sector, winsect: nat, lastClst: nat, freeClst: nat, info: bool)

  const UNKNOWN := 0xFFFF_FFFF

  /** check_fs of a sector of the drive: 4 for a disk error. */
  method CheckSector(drive: Drive, at: nat) returns (fmt: nat, win: Sector)
    modifies drive`failed
    ensures (old(drive.failed) ==> drive.failed) && (fmt == 4 && at < |drive.disk| ==> drive.failed)
    ensures fmt == 4 || (at < |drive.disk| && win == drive.disk[at] && fmt == CheckFs(win))
  {
    var ok;
    ok, win := drive.Read(at);
    fmt := if ok then CheckFs(win) else 4;
  }

  /** Where partition `i` starts; 0 if there is none. */
  function PartStart(mbr: Sector, i: nat): nat
    requires i < 4
  {
    LdDword(mbr, MBR_TABLE + i * SZ_PTE + PTE_ST_LBA)
  }

  /** A partition has the boot record of a FAT volume. */
  predicate HoldsFat(d: Disk, i: nat) {
    i < 4 && d != [] && 0 < PartStart(d[0], i) < |d| && CheckFs(d[PartStart(d[0], i)]) == 0
  }

  /** The first partition from `i` on that has one and can be read; past the end of the drive if there is none. */
  function Scan(d: Disk, oks: seq<bool>, i: nat): nat
    requires d != [] && |oks| == 5
    decreases 4 - i
  {
    if i >= 4 then |d| else if HoldsFat(d, i) && oks[i + 1] then PartStart(d[0], i) else Scan(d, oks, i + 1)
  }

  function OpenFindUnder(d: Disk, oks: seq<bool>): nat {
    if d == [] || |oks| != 5 || !oks[0] then |d|
    else if CheckFs(d[0]) == 0 then 0
    else if CheckFs(d[0]) == 2 then Scan(d, oks, 0)
    else |d|
  }

  /** Where find_volume finds a volume if of sector 0 and of the starts of the four partitions those can be read that
      `oks` says; past the end of the drive if nowhere. The countdown only keeps proofs from looking inside where
      FindUnderIs is not called. */
  function FindUnder(d: Disk, oks: seq<bool>): nat {
    FindUnderAfter(d, oks, |d|)
  }

  function FindUnderAfter(d: Disk, oks: seq<bool>, countdown: nat): nat {
    if countdown > 0 then FindUnderAfter(d, oks, countdown - 1) else OpenFindUnder(d, oks)
  }

  lemma {:induction false} FindUnderAfterIs(d: Disk, oks: seq<bool>, countdown: nat)
    ensures FindUnderAfter(d, oks, countdown) == OpenFindUnder(d, oks)
  {
    if countdown > 0 {
      FindUnderAfterIs(d, oks, countdown - 1);
    }
  }

  lemma FindUnderIs(d: Disk, oks: seq<bool>)
    ensures FindUnder(d, oks) == OpenFindUnder(d, oks)
  {
    FindUnderAfterIs(d, oks, |d|);
  }

  /** Where the volume of a drive is. */
  function PlaceOf(d: Disk): nat {
    FindUnder(d, [true, true, true, true, true])
  }

  /** No partition with the boot record of a FAT volume starts elsewhere than the first of them. */
  predicate NoRival(d: Disk) {
    d != [] && CheckFs(d[0]) == 2 ==>
      forall i, j :: 0 <= i < j < 4 && HoldsFat(d, i) && HoldsFat(d, j) ==> PartStart(d[0], i) == PartStart(d[0], j)
  }

  lemma {:induction false} ScanFinds(d: Disk, oks: seq<bool>, i: nat) returns (k: nat)
    requires d != [] && |oks| == 5 && i <= 4
    ensures i <= k <= 4 && forall j :: i <= j < k ==> !(HoldsFat(d, j) && oks[j + 1])
    ensures if k == 4 then Scan(d, oks, i) == |d|
            else HoldsFat(d, k) && oks[k + 1] && Scan(d, oks, i) == PartStart(d[0], k)
    decreases 4 - i
  {
    if i == 4 || (HoldsFat(d, i) && oks[i + 1]) {
      k := i;
    } else {
      k := ScanFinds(d, oks, i + 1);
    }
  }

  /** What cannot be read only matters to find_volume, apart from finding nothing, if there is a rival: it then comes
      to another volume than it would without a disk error, and does not tell. */
  lemma FindIff(d: Disk)
    ensures NoRival(d) <==> (forall oks :: FindUnder(d, oks) == PlaceOf(d) || FindUnder(d, oks) == |d|)
  {
    var all := [true, true, true, true, true];
    FindUnderIs(d, all);
    if NoRival(d) {
      forall oks ensures FindUnder(d, oks) == PlaceOf(d) || FindUnder(d, oks) == |d| {
        FindUnderIs(d, oks);
        if d != [] && CheckFs(d[0]) == 2 && |oks| == 5 && oks[0] {
          var k := ScanFinds(d, oks, 0);
          var k' := ScanFinds(d, all, 0);
          assert k < 4 ==> k' <= k;
        }
      }
    } else {
      var i, j :| 0 <= i < j < 4 && HoldsFat(d, i) && HoldsFat(d, j) && PartStart(d[0], i) != PartStart(d[0], j);
      RivalFound(d, i, j);
    }
  }

  /** Of two such partitions each is found if the other ones cannot be read. */
  lemma RivalFound(d: Disk, i: nat, j: nat)
    requires d != [] && CheckFs(d[0]) == 2 && HoldsFat(d, i) && HoldsFat(d, j)
    ensures FindUnder(d, Only(i)) == PartStart(d[0], i) < |d| && FindUnder(d, Only(j)) == PartStart(d[0], j) < |d|
  {
    FindUnderIs(d, Only(i));
    FindUnderIs(d, Only(j));
    var k := ScanFinds(d, Only(i), 0);
    var k' := ScanFinds(d, Only(j), 0);
    assert k == i && k' == j;
  }

  /** Only sector 0 and the start of partition `i` can be read. */
  function Only(i: nat): (oks: seq<bool>)
    ensures |oks| == 5 && oks[0] && forall k :: 0 < k < 5 ==> (oks[k] <==> k == i + 1)
  {
    [true, i == 0, i == 1, i == 2, i == 3]
  }

  /** A sector as an MBR with a partition at sector 1 and another at sector 2. */
  function TwoParts(z: Sector): (mbr: Sector)
    requires z[0] == 0
    ensures CheckFs(mbr) == 2 && PartStart(mbr, 0) == 1 && PartStart(mbr, 1) == 2
  {
    var a: Sector := StDword(z, MBR_TABLE + PTE_ST_LBA, 1);
    var b: Sector := StDword(a, MBR_TABLE + SZ_PTE + PTE_ST_LBA, 2);
    StWord(b, BS_55AA, SIGNATURE)
  }

  /** Two volumes on one drive: with a disk error at the first, the second is mounted. */
  lemma RivalDrive(z: Sector, vbr: Sector)
    requires z[0] == 0 && CheckFs(vbr) == 0
    ensures var d := [TwoParts(z), vbr, vbr];
            PlaceOf(d) == 1 && FindUnder(d, Only(1)) == 2 && !NoRival(d)
  {
    var d := [TwoParts(z), vbr, vbr];
    assert HoldsFat(d, 0) && HoldsFat(d, 1);
    RivalFound(d, 0, 1);
    FindUnderIs(d, [true, true, true, true, true]);
  }

  /** The drive has one volume at most. */
  predicate Lone(d: Disk) {
    d != [] && (CheckFs(d[0]) == 0 || Single(d[0]))
  }

  lemma LoneHasNoRival(d: Disk)
    requires Lone(d)
    ensures NoRival(d)
  {
    assert CheckFs(d[0]) == 2 ==> !HoldsFat(d, 1) && !HoldsFat(d, 2) && !HoldsFat(d, 3);
  }

  /** find_volume: the drive's first sector, or else the first partition that has a FAT volume. A partition that
      cannot be read is passed over. */
  method FindVolume(drive: Drive) returns (fmt: nat, at: nat, win: Sector, ghost oks: seq<bool>)
    modifies drive`failed
    ensures |oks| == 5 && (!drive.failed ==> oks == [true, true, true, true, true])
    ensures fmt == 0 <==> FindUnder(drive.disk, oks) < |drive.disk|
    ensures fmt == 0 ==> at == FindUnder(drive.disk, oks) && win == drive.disk[at] && CheckFs(win) == 0
  {
    oks := [true, true, true, true, true];
    at := 0;
    fmt, win := CheckSector(drive, 0);
    if fmt == 4 && 0 < |drive.disk| { oks := oks[0 := false]; }
    FindUnderIs(drive.disk, oks);
    if fmt != 2 {
      return;
    }
    var mbr := win;
    var i := 0;
    fmt := 3;
    while i < 4
      invariant i <= 4 && 0 < |drive.disk| && mbr == drive.disk[0] && CheckFs(mbr) == 2 && fmt >= 2
      invariant |oks| == 5 && oks[0] && (forall k :: i < k < 5 ==> oks[k])
      invariant !drive.failed ==> oks == [true, true, true, true, true]
      invariant forall k :: 0 <= k < i ==> !(HoldsFat(drive.disk, k) && oks[k + 1])
    {
      at := PartStart(mbr, i);
      if at != 0 {
        fmt, win := CheckSector(drive, at);
        if fmt == 4 && at < |drive.disk| { oks := oks[i + 1 := false]; }
      } else {
        fmt := 3;
      }
      if fmt < 2 {
        ScanStops(drive.disk, oks, 0, i);
        FindUnderIs(drive.disk, oks);
        return;
      }
      i := i + 1;
    }
    ghost var k := ScanFinds(drive.disk, oks, 0);
    FindUnderIs(drive.disk, oks);
  }

  lemma ScanStops(d: Disk, oks: seq<bool>, i: nat, k: nat)
    requires d != [] && |oks| == 5 && i <= k < 4 && HoldsFat(d, k) && oks[k + 1]
    requires forall j :: i <= j < k ==> !(HoldsFat(d, j) && oks[j + 1])
    ensures Scan(d, oks, i) == PartStart(d[0], k)
  {
    var k' := ScanFinds(d, oks, i);
  }

  /** The volume that the boot record at a sector describes. */
  function VolumeAfter(d: Disk, at: nat, countdown: nat): Mounting {
    if countdown > 0 then VolumeAfter(d, at, countdown - 1)
    else if at < |d| && CheckFs(d[at]) == 0 then ReadVbr(d[at], at, |d|) else NoFilesystem
  }

  function VolumeAt(d: Disk, at: nat): Mounting {
    VolumeAfter(d, at, |d|)
  }

  lemma {:induction false} VolumeAfterIs(d: Disk, at: nat, countdown: nat)
    ensures VolumeAfter(d, at, countdown) == VolumeAfter(d, at, 0)
  {
    if countdown > 0 {
      VolumeAfterIs(d, at, countdown - 1);
    }
  }

  lemma VolumeAtIs(d: Disk, at: nat)
    ensures VolumeAt(d, at) == if at < |d| && CheckFs(d[at]) == 0 then ReadVbr(d[at], at, |d|) else NoFilesystem
    ensures VolumeAt(d, at).Mounted? ==> VolumeAt(d, at).g.volbase == at && VolumeAt(d, at).g.sectors == |d|
  {
    VolumeAfterIs(d, at, |d|);
  }

  /** The free-cluster count and the allocation hint of the record behind a boot record, if it is one. */
  method ReadInfo(drive: Drive, at: nat) returns (ok: bool, win: Sector, lastClst: nat, freeClst: nat)
    modifies drive`failed
    ensures (old(drive.failed) ==> drive.failed) && (!ok && at < |drive.disk| ==> drive.failed)
    ensures ok ==> at < |drive.disk| && win == drive.disk[at]
    ensures if ok && IsInfo(win) then InfoTells(win, freeClst, lastClst) else freeClst == lastClst == UNKNOWN
  {
    lastClst, freeClst := UNKNOWN, UNKNOWN;
    ok, win := drive.Read(at);
    if ok && IsInfo(win) {
      freeClst, lastClst := LdDword(win, 488), LdDword(win, 492);
    }
  }

  /** The window as mounting leaves it: on the boot record, on the record behind it or empty. */
  predicate WindowAt(d: Disk, f: Found) {
    || f.winsect == NO_SECTOR
    || (f.winsect < |d| && f.win == d[f.winsect]
        && (f.winsect == f.g.volbase || (f.g.fatType == FAT32 && f.winsect == f.g.volbase + 1)))
  }

  /** A boot record says that a free-cluster record follows. */
  predicate Informed(d: Disk, g: Geometry) {
    g.fatType == FAT32 && g.volbase + 1 < |d| && ExtOf(d[g.volbase]).fsInfo == 1
  }

  /** The count and the hint as mounting finds them: unknown, or what the record says. */
  predicate InfoFrom(d: Disk, f: Found) {
    if f.info && Informed(d, f.g) && IsInfo(d[f.g.volbase + 1])
    then InfoTells(d[f.g.volbase + 1], f.freeClst, f.lastClst)
    else f.freeClst == f.lastClst == UNKNOWN
  }

  /** mount_volume: the layout that the boot record describes, and the free-cluster record of a FAT32 volume. */
  method MountVolume(drive: Drive) returns (res: MountResult, f: Found)
    modifies drive`failed
    ensures res == MountOk ==>
              VolumeAt(drive.disk, f.g.volbase) == Mounted(f.g) && WindowAt(drive.disk, f) && InfoFrom(drive.disk, f)
    ensures !drive.failed ==> (res == MountOk <==> VolumeAt(drive.disk, PlaceOf(drive.disk)).Mounted?)
    ensures !drive.failed && res == MountOk ==>
              f.g.volbase == PlaceOf(drive.disk) && (f.info <==> Informed(drive.disk, f.g))
    ensures res == MountOk ==> f.info ==> Informed(drive.disk, f.g)
    ensures res == MountOk && NoRival(drive.disk) ==> f.g.volbase == PlaceOf(drive.disk)
  {
    var fmt, at, win;
    ghost var oks;
    fmt, at, win, oks := FindVolume(drive);
    FindIff(drive.disk);
    VolumeAtIs(drive.disk, PlaceOf(drive.disk));
    var none := Geometry(FAT12, 1, 1, 16, 3, 1, 0, 1, 2, 3, 4);
    f := Found(none, win, at, UNKNOWN, UNKNOWN, false);
    if fmt != 0 {
      return if fmt == 4 then MountDiskError else NoFatVolume, f;
    }
    var m := ReadAt(drive, at, win);
    if m.NoFilesystem? {
      return NoFatVolume, f;
    }
    f := Found(m.g, win, at, UNKNOWN, UNKNOWN, false);
    if m.g.fatType == FAT32 && ExtOf(win).fsInfo == 1 {
      var ok, info, last, free := ReadInfo(drive, at + 1);
      f := if ok then Found(m.g, info, at + 1, last, free, true)
                 else Found(m.g, win, NO_SECTOR, UNKNOWN, UNKNOWN, false);
    }
    res := MountOk;
  }

  /** A boot record read. */
  method ReadAt(drive: Drive, at: nat, win: Sector) returns (m: Mounting)
    requires at < |drive.disk| && win == drive.disk[at] && CheckFs(win) == 0
    ensures m == VolumeAt(drive.disk, at) && (m.Mounted? ==> m.g.volbase == at)
  {
    VolumeAtIs(drive.disk, at);
    m := ReadVbr(win, at, |drive.disk|);
  }

  // A formatted drive mounted.

  lemma MbrIsNoVbr(s: Sector, start: nat)
    requires IsMbr(s, start)
    ensures CheckFs(s) == 2
  {
  }

  /** A formatted drive has its volume where it was put, with the layout of the plan. */
  lemma FormattedMounts(d: Disk, sfd: bool, o: Options, p: Plan, z: Sector)
    requires Formatted(d, sfd, o, p, z)
    ensures var bVol := VolumeStart(|d|, sfd);
            && PlaceOf(d) == bVol < |d| && VolumeAt(d, bVol) == Mounted(PlanGeometry(p, bVol, |d|, o))
            && ValidGeometry(PlanGeometry(p, bVol, |d|, o)) && NoRival(d)
  {
    var bVol := VolumeStart(|d|, sfd);
    var size := |d| - bVol;
    VbrReadsBack(d[bVol], p, size, bVol, |d|, o);
    PlanIsValid(p, size, bVol, |d|, o);
    VolumeAtIs(d, bVol);
    FindUnderIs(d, [true, true, true, true, true]);
    LoneHasNoRival(d);
    if !sfd {
      MbrIsNoVbr(d[0], N_SEC_TRACK);
    }
  }

  /** The bytes of a fresh FAT. */
  lemma FreshBytes(d: Disk, at: nat, n: nat, t: FatType, z: Sector, i: nat)
    requires && Fresh(d, at, n, FirstFat(t, z), z) && i < 512 * n && IsZero(z) && (t == FAT32 || 3 <= i)
             && (t != FAT32 || 12 <= i)
    requires t == FAT16 ==> 4 <= i
    ensures Flat(d[at..at + n])[i] == 0
  {
    IndexByte(i);
    var ss := d[at..at + n];
    FlatAt(ss, i / 512, i % 512);
    assert ss[i / 512] == d[at + i / 512];
  }

  predicate IsZero(s: Sector) {
    forall j :: 0 <= j < 512 ==> s[j] == 0
  }

  /** In a fresh FAT every cluster is free but the root directory's on FAT32. */
  lemma FreshEntry(d: Disk, at: nat, n: nat, t: FatType, z: Sector, c: nat)
    requires Fresh(d, at, n, FirstFat(t, z), z) && IsZero(z) && 2 <= c && Fits(512 * n, t, c)
    ensures Entry(Flat(d[at..at + n]), t, c) == if t == FAT32 && c == 2 then 0x0FFF_FFFF else 0
  {
    var ss := d[at..at + n];
    var b := Flat(ss);
    if t == FAT32 && c == 2 {
      forall k | 8 <= k < 12 ensures b[k] == FirstFat(t, z)[k] {
        FlatAt(ss, 0, k);
      }
    } else {
      var o := ByteOffset(t, c);
      FreshBytes(d, at, n, t, z, o);
      FreshBytes(d, at, n, t, z, o + 1);
      if t == FAT32 {
        FreshBytes(d, at, n, t, z, o + 2);
        FreshBytes(d, at, n, t, z, o + 3);
      }
    }
  }

  /** The table of a volume whose clusters are free, but the first one if it is taken. */
  predicate AllFree(f: seq<nat>, taken: bool) {
    forall c :: 2 <= c < |f| ==> f[c] == if taken && c == 2 then 0x0FFF_FFFF else 0
  }

  lemma FreshTable(g: VolumeGeometry, d: Disk, z: Sector)
    requires |d| == g.sectors && IsZero(z) && Fresh(d, g.fatbase, g.fsize, FirstFat(g.fatType, z), z)
    ensures AllFree(ViewOf(g, d).table, g.fatType == FAT32) && |ViewOf(g, d).table| == g.nFatent
  {
    ViewIs(g, d);
    ViewSizes(g, d);
    var t := Flat(d[g.fatbase..g.fatbase + g.fsize]);
    var f := ViewOf(g, d).table;
    forall c | 2 <= c < |f| ensures f[c] == if g.fatType == FAT32 && c == 2 then 0x0FFF_FFFF else 0 {
      EntriesAt(t, g.fatType, g.nFatent, c);
      FreshEntry(d, g.fatbase, g.fsize, g.fatType, z, c);
    }
  }

  /** Such a table is a set of chains, with all clusters free but that one. */
  lemma FreshWellFormed(f: seq<nat>, taken: bool)
    requires AllFree(f, taken) && 3 <= |f| <= 0x0FFF_FFFF
    ensures WellFormed(f) && FreeCount(f) == |f| - 2 - (if taken then 1 else 0)
    ensures taken ==> IsChain(f, [2])
  {
    if taken {
      assert IsCluster(f, 2) && IsChain(f, [2]);
    }
    WellFormedIff(f);
    FreshCount(f, taken, |f|);
  }

  lemma {:induction false} FreshCount(f: seq<nat>, taken: bool, n: nat)
    requires AllFree(f, taken) && 2 <= n <= |f|
    ensures CountFree(f, n) == n - 2 - (if taken && n > 2 then 1 else 0)
  {
    if n > 2 {
      FreshCount(f, taken, n - 1);
    }
  }

  lemma FreshMirror(g: VolumeGeometry, d: Disk, f: Sector, z: Sector)
    requires && |d| == g.sectors && g.nFats == 2 && Fresh(d, g.fatbase, g.fsize, f, z)
             && Fresh(d, g.fatbase + g.fsize, g.fsize, f, z)
    ensures Mirrored(g, d, -1)
  {
  }

  /** The root directory table of a volume. */
  function RootTable(g: VolumeGeometry): Table {
    if g.fatType == FAT32 then Chained([2]) else Static
  }

  /** The regions of a fresh volume, by its layout. */
  ghost predicate FreshRegions(g: VolumeGeometry, d: Disk, z: Sector) {
    && |d| == g.sectors && Fresh(d, g.fatbase, g.fsize, FirstFat(g.fatType, z), z)
    && (g.nFats == 2 ==> Fresh(d, g.fatbase + g.fsize, g.fsize, FirstFat(g.fatType, z), z))
    && Fresh(d, RestBase(g), if g.fatType == FAT32 then g.csize else g.nRootdir / 16, z, z)
    && (g.fatType == FAT32 ==> g.dirbase == 2)
  }

  lemma FormattedRegions(d: Disk, sfd: bool, o: Options, p: Plan, z: Sector)
    requires Formatted(d, sfd, o, p, z)
    ensures var g := PlanGeometry(p, VolumeStart(|d|, sfd), |d|, o); ValidGeometry(g) && FreshRegions(g, d, z)
  {
    FormattedMounts(d, sfd, o, p, z);
  }

  /** The root directory of a fresh volume is empty. */
  lemma EmptyRoot(g: VolumeGeometry, d: Disk, z: Sector, k: nat)
    requires FreshRegions(g, d, z) && IsZero(z) && ProperTable(g, RootTable(g)) && HasPart(g, RootTable(g), k / 16)
    ensures |ViewOf(g, d).rest| == g.sectors - RestBase(g) && Mark(g, ViewOf(g, d).rest, RootTable(g), k) == 0
  {
    ViewIs(g, d);
    ViewSizes(g, d);
    var j := Part(g, RootTable(g), k / 16);
    if g.fatType == FAT32 {
      assert ClusterIx(g.csize, k / 16) == 0;
      assert j == k / 16;
    }
    assert ViewOf(g, d).rest[j] == d[RestBase(g) + j];
  }

  lemma RootDescribed(g: VolumeGeometry, f: seq<nat>)
    requires |f| == g.nFatent && WellFormed(f) && (g.fatType == FAT32 ==> IsChain(f, [2]))
    ensures Describes(g, f, RootTable(g), if g.fatType == FAT32 then 2 else 0) && ProperTable(g, RootTable(g))
  {
    if g.fatType == FAT32 {
      ChainDescribes(g, f, [2]);
    } else {
      DescribesIs(g, f, Static, 0);
    }
    DescribesKind(g, f, RootTable(g), if g.fatType == FAT32 then 2 else 0);
  }

  /** What a view of a fresh volume shows: a FAT that is a set of chains, with all clusters free but the root
      directory's, and an empty root directory. */
  ghost predicate FreshView(g: VolumeGeometry, v: View) {
    && |v.table| == g.nFatent && WellFormed(v.table) && |v.rest| == g.sectors - RestBase(g)
    && FreeCount(v.table) == g.nFatent - 2 - (if g.fatType == FAT32 then 1 else 0)
    && Describes(g, v.table, RootTable(g), if g.fatType == FAT32 then 2 else 0) && ProperTable(g, RootTable(g))
    && forall k: nat :: HasPart(g, RootTable(g), k / 16) ==> Mark(g, v.rest, RootTable(g), k) == 0
  }

  lemma FreshShows(g: VolumeGeometry, d: Disk, z: Sector)
    requires FreshRegions(g, d, z) && IsZero(z)
    ensures FreshView(g, ViewOf(g, d))
  {
    FreshTable(g, d, z);
    FreshWellFormed(ViewOf(g, d).table, g.fatType == FAT32);
    RootDescribed(g, ViewOf(g, d).table);
    ViewSizes(g, d);
    forall k: nat | HasPart(g, RootTable(g), k / 16) ensures Mark(g, ViewOf(g, d).rest, RootTable(g), k) == 0 {
      EmptyRoot(g, d, z, k);
    }
  }

  /** The count that mounting finds on a fresh volume is unknown or right. */
  lemma FreshCountRight(d: Disk, p: Plan, bVol: nat, f: Found, n: nat)
    requires && InfoFrom(d, f) && f.g.volbase == bVol && f.g.fatType == p.fatType && HasInfo(d, bVol, p, ZERO_SECTOR)
             && 0 < p.nClst < WORD32
    requires f.g.nFatent == p.nClst + 2 && p.nClst < UNKNOWN && n == p.nClst - (if p.fatType == FAT32 then 1 else 0)
    ensures f.freeClst > f.g.nFatent - 2 || f.freeClst == n
  {
    if p.fatType == FAT32 {
      FsInfoTells(ZERO_SECTOR, p.nClst - 1, 2);
    }
  }

  /** A mounted volume for what mounting has found. */
  method Attach(drive: Drive, f: Found, g: VolumeGeometry) returns (vol: Volume)
    requires f.g == g && WindowAt(drive.disk, f) && FreshRegions(g, drive.disk, ZERO_SECTOR)
    ensures && vol.Valid() && vol.g == g && vol.freeClst == f.freeClst && vol.lastClst == f.lastClst
            && vol.Image() == ViewOf(g, drive.disk) && fresh(vol)
  {
    if g.nFats == 2 {
      FreshMirror(g, drive.disk, FirstFat(g.fatType, ZERO_SECTOR), ZERO_SECTOR);
    }
    vol := new Volume(g, drive.disk, f.win, f.winsect, f.lastClst, f.freeClst, f.info, false);
  }

  /** What is known of a formatted drive and of the volume it is mounted as. */
  ghost predicate MountedAs(d: Disk, sfd: bool, o: Options, p: Plan, informed: bool, vol: Volume)
    reads vol
  {
    && vol.g == PlanGeometry(p, VolumeStart(|d|, sfd), |d|, o)
    && vol.Valid() && FreshView(vol.g, vol.Image()) && (informed ==> CountOk(vol))
  }

  /** A formatted drive mounted. */
  method MountFormatted(drive: Drive, ghost sfd: bool, ghost o: Options, ghost p: Plan) returns (vol: Volume?)
    modifies drive`failed
    requires Formatted(drive.disk, sfd, o, p, ZERO_SECTOR)
    requires !drive.lost ==> HasInfo(drive.disk, VolumeStart(|drive.disk|, sfd), p, ZERO_SECTOR)
    ensures vol == null ==> drive.failed
    ensures vol != null ==> MountedAs(drive.disk, sfd, o, p, !drive.lost, vol)
  {
    FormattedMounts(drive.disk, sfd, o, p, ZERO_SECTOR);
    FormattedRegions(drive.disk, sfd, o, p, ZERO_SECTOR);
    FormattedSizes(drive.disk, sfd, o, p, ZERO_SECTOR);
    var r, f;
    vol := null;
    r, f := MountVolume(drive);
    if r == MountOk {
      FreshShows(f.g, drive.disk, ZERO_SECTOR);
      if !drive.lost {
        FreshCountRight(drive.disk, p, f.g.volbase, f, FreeCount(ViewOf(f.g, drive.disk).table));
      }
      vol := Attach(drive, f, f.g);
    }
  }

  lemma FormattedSizes(d: Disk, sfd: bool, o: Options, p: Plan, z: Sector)
    requires Formatted(d, sfd, o, p, z)
    ensures 0 < p.nClst < UNKNOWN
  {
  }

  /** Format, then mount: without a disk error a drive that f_mkfs has formatted is accepted with the layout chosen,
      as a volume that all else can work on. */
  method FormatAndMount(drive: Drive, sfd: bool, o: Options, vsn: nat, szBuf: nat)
      returns (res: Outcome, vol: Volume?, ghost p: Plan)
    requires ValidOptions(o) && |drive.disk| < WORD32 && 0 < szBuf && !drive.lost && !drive.failed
    modifies drive
    ensures (res == Done && vol == null ==> drive.failed) && (res == DiskError ==> drive.broken)
    ensures (res == MkfsAborted <==>
               || |drive.disk| - VolumeStart(|drive.disk|, sfd) < 128
               || PlanFor(|drive.disk| - VolumeStart(|drive.disk|, sfd), !o.fat, o.au, o) == Aborted)
    ensures vol != null ==> res == Done && MountedAs(drive.disk, sfd, o, p, !drive.lost, vol)
    ensures vol != null ==> PlanFor(|drive.disk| - VolumeStart(|drive.disk|, sfd), !o.fat, o.au, o) == Chosen(p)
  {
    var plan;
    vol := null;
    res, plan := Mkfs(drive, sfd, o, vsn, szBuf);
    p := plan;
    if res == Done {
      vol := MountFormatted(drive, sfd, o, p);
    }
  }
}
