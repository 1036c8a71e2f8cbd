/** Formatting a drive: f_mkfs and create_partition. */
module FatFormat {
  import opened FatBytes
  import opened FatTable
  import opened FatPlan
  import opened FatBoot
  import opened FatEntry
  import opened DirTable

  datatype Outcome = Done | DiskError | MkfsAborted

  const N_SEC_TRACK := 63
  const MBR_TABLE := 446
  const SZ_PTE := 16
  const PTE_ST_LBA := 8
  const PTE_SIZ_LBA := 12
  const PTE_SYSTEM := 4

  /** A drive. Transfers may fail; a failed write leaves anything in its sector. */
  class Drive {
    var disk: Disk
    ghost var lost: bool  // some write whose result is not looked at has failed
    ghost var failed: bool  // some read of a sector of the drive has failed
    ghost var broken: bool  // some write, or flushing the drive, has failed

    constructor (disk: Disk)
      ensures this.disk == disk && !lost && !failed && !broken
    {
      this.disk, lost, failed, broken := disk, false, false, false;
    }

    method Luck() returns (ok: bool, junk: Sector) {
      ok, junk := *, ZERO_SECTOR;
    }

    method Write(s: Sector, at: nat) returns (ok: bool)
      requires at < |disk|
      modifies `disk, `broken
      ensures |disk| == |old(disk)| && disk == old(disk)[at := disk[at]] && (ok ==> disk[at] == s)
      ensures broken == (old(broken) || !ok)
    {
      var junk;
      ok, junk := Luck();
      disk := disk[at := if ok then s else junk];
      broken := broken || !ok;
    }

    /** The drive's own cache flushed. */
    method Sync() returns (ok: bool)
      modifies `broken
      ensures broken == (old(broken) || !ok)
    {
      var junk;
      ok, junk := Luck();
      broken := broken || !ok;
    }

    method Read(at: nat) returns (ok: bool, s: Sector)
      modifies `failed
      ensures ok ==> at < |disk| && s == disk[at]
      ensures failed == (old(failed) || (!ok && at < |disk|))
    {
      ok, s := Luck();
      if at < |disk| {
        if ok {
          s := disk[at];
        } else {
          failed := true;
        }
      } else {
        ok := false;
      }
    }

    /** A write whose result is not looked at. */
    method WriteAnyway(s: Sector, at: nat)
      requires at < |disk|
      modifies `disk, `lost, `broken
      ensures |disk| == |old(disk)| && disk == old(disk)[at := disk[at]] && (!lost ==> !old(lost) && disk[at] == s)
    {
      var ok := Write(s, at);
      lost := lost || !ok;
    }

    /** Some sectors written, the first of them with `f` and the others with zeros. */
    method WriteRun(f: Sector, at: nat, n: nat) returns (ok: bool)
      requires at + n <= |disk| && 0 < n
      modifies `disk, `broken
      ensures !ok ==> broken
      ensures |disk| == |old(disk)| && (ok ==> disk == Laid(old(disk), at, n, f, ZERO_SECTOR))
    {
      ok := Write(f, at);
      LaidOne(old(disk), at, f, ZERO_SECTOR);
      var i := 1;
      while ok && i < n
        invariant && (!ok ==> broken) && |disk| == |old(disk)| && 1 <= i <= n
                  && (ok ==> disk == Laid(old(disk), at, i, f, ZERO_SECTOR))
        decreases n - i, ok
      {
        ok := Write(ZERO_SECTOR, at + i);
        if ok {
          LaidMore(old(disk), at, i, 1, f, ZERO_SECTOR);
          i := i + 1;
        }
      }
    }

    /** A region written in pieces no larger than the buffer. */
    method FillRegion(f: Sector, at: nat, total: nat, szBuf: nat) returns (ok: bool)
      requires at + total <= |disk| && 0 < total && 0 < szBuf
      modifies `disk, `broken
      ensures !ok ==> broken
      ensures |disk| == |old(disk)| && (ok ==> disk == Laid(old(disk), at, total, f, ZERO_SECTOR))
    {
      var first, sect: nat, nsect: nat := f, at, total;
      ok := true;
      while ok && nsect > 0
        invariant (!ok ==> broken) && |disk| == |old(disk)| && sect + nsect == at + total && at <= sect
        invariant ok ==>
                    && disk == Laid(old(disk), at, sect - at, f, ZERO_SECTOR)
                    && first == (if sect == at then f else ZERO_SECTOR)
        decreases nsect, ok
      {
        var n := if nsect > szBuf then szBuf else nsect;
        ok := WriteRun(first, sect, n);
        if ok {
          LaidMore(old(disk), at, sect - at, n, f, ZERO_SECTOR);
          first := ZERO_SECTOR;
          sect, nsect := sect + n, nsect - n;
        }
      }
    }
  }

  /** `d` with `n` sectors from `at` on replaced, the first by `f` and the others by `z`. */
  function Laid(d: Disk, at: nat, n: nat, f: Sector, z: Sector): (r: Disk)
    requires at + n <= |d|
    ensures |r| == |d|
  {
    if n == 0 then d else Filled(d, at, n, z)[at := f]
  }

  lemma LaidAt(d: Disk, at: nat, n: nat, f: Sector, z: Sector, s: nat)
    requires at + n <= |d| && s < |d|
    ensures Laid(d, at, n, f, z)[s] == if at <= s < at + n then if s == at then f else z else d[s]
  {
    FilledAt(d, at, n, z, s);
  }

  lemma LaidMore(d: Disk, at: nat, m: nat, n: nat, f: Sector, z: Sector)
    requires at + m + n <= |d| && 0 < n
    ensures Laid(Laid(d, at, m, f, z), at + m, n, if m == 0 then f else z, z) == Laid(d, at, m + n, f, z)
    ensures m > 0 && n == 1 ==> Laid(d, at, m, f, z)[at + m := z] == Laid(d, at, m + 1, f, z)
  {
    var e := Laid(d, at, m, f, z);
    var x, y := Laid(e, at + m, n, if m == 0 then f else z, z), Laid(d, at, m + n, f, z);
    forall s | 0 <= s < |d| ensures x[s] == y[s] {
      LaidAt(d, at, m, f, z, s);
      LaidAt(e, at + m, n, if m == 0 then f else z, z, s);
      LaidAt(d, at, m + n, f, z, s);
    }
    if m > 0 && n == 1 {
      var w := e[at + m := z];
      forall s | 0 <= s < |d| ensures w[s] == y[s] {
        LaidAt(d, at, m, f, z, s);
        LaidAt(d, at, m + n, f, z, s);
      }
    }
  }

  lemma LaidOne(d: Disk, at: nat, f: Sector, z: Sector)
    requires at < |d|
    ensures Laid(d, at, 1, f, z) == d[at := f]
  {
    assert Filled(d, at, 1, z) == Filled(d, at, 0, z)[at := z];
  }

  // The partition table.

  /** The number of heads for the geometry in the partition table. */
  method Heads(szDrv: nat) returns (n: nat)
    ensures 0 < n < 256
  {
    n := 8;
    while n != 0 && szDrv / n / N_SEC_TRACK > 1024
      invariant n == 0 || n == 8 || n == 16 || n == 32 || n == 64 || n == 128
      decreases if n == 0 then 0 else 256 - n
    {
      n := n * 2 % 256;
    }
    if n == 0 {
      n := 255;
    }
  }

  /** A sector number as head, sector and cylinder of an entry. */
  method PutChs(t: Sector, o: nat, lba: nat, heads: nat) returns (s: Sector)
    requires o + 3 <= 512 && 0 < heads < 256
    ensures forall j :: 0 <= j < 512 && !(o <= j < o + 3) ==> s[j] == t[j]
  {
    var cy, hd, sc := lba / N_SEC_TRACK / heads, lba / N_SEC_TRACK % heads, lba % N_SEC_TRACK + 1;
    s := t[o := hd][o + 1 := cy / 256 % 4 * 64 + sc][o + 2 := cy % 256];
  }

  /** One entry of the partition table. */
  method PutEntry(t: Sector, i: nat, start: nat, size: nat, sys: byte, heads: nat) returns (s: Sector)
    requires i < 4 && start < WORD32 && 0 < size && 0 < heads < 256
    ensures LdDword(s, MBR_TABLE + i * SZ_PTE + PTE_ST_LBA) == start
    ensures forall j ::
              0 <= j < 512 && !(MBR_TABLE + i * SZ_PTE <= j < MBR_TABLE + i * SZ_PTE + SZ_PTE) ==> s[j] == t[j]
  {
    var pte := MBR_TABLE + i * SZ_PTE;
    s := PutChs(t, pte + 1, start, heads);
    s := PutChs(s, pte + 5, start + size - 1, heads);
    s := s[pte + PTE_SYSTEM := sys];
    s := StDword(s, pte + PTE_SIZ_LBA, size);
    s := StDword(s, pte + PTE_ST_LBA, start);
  }

  /** A partition table whose first partition starts at a sector and that has no other. */
  predicate IsMbr(s: Sector, start: nat) {
    s[0] == 0 && LdWord(s, BS_55AA) == SIGNATURE && LdDword(s, MBR_TABLE + PTE_ST_LBA) == start && Single(s)
  }

  predicate Single(s: Sector) {
    && LdDword(s, MBR_TABLE + SZ_PTE + PTE_ST_LBA) == 0 && LdDword(s, MBR_TABLE + 2 * SZ_PTE + PTE_ST_LBA) == 0
    && LdDword(s, MBR_TABLE + 3 * SZ_PTE + PTE_ST_LBA) == 0
  }

  /** The size of a partition: as asked for, in percent of the drive up to 100, and clipped at its end. */
  function PartSize(asked: nat, next: nat, szDrv: nat): nat
    requires next < szDrv
  {
    var n := if asked <= 100 then if asked == 100 then szDrv else szDrv / 100 * asked else asked;
    if next + n > szDrv then szDrv - next else n
  }

  /** create_partition: the partitions of a list laid out one after another behind the first track. */
  method MakeMbr(szDrv: nat, plst: seq<nat>, sys: byte) returns (s: Sector)
    requires szDrv < WORD32
    ensures s[0] == 0 && LdWord(s, BS_55AA) == SIGNATURE
    ensures N_SEC_TRACK < szDrv && plst != [] && PartSize(plst[0], N_SEC_TRACK, szDrv) > 0 ==>
              LdDword(s, MBR_TABLE + PTE_ST_LBA) == N_SEC_TRACK
    ensures N_SEC_TRACK < szDrv && plst != [] && PartSize(plst[0], N_SEC_TRACK, szDrv) == szDrv - N_SEC_TRACK ==>
              IsMbr(s, N_SEC_TRACK)
  {
    var heads := Heads(szDrv);
    var t: Sector := ZERO_SECTOR;
    var i: nat, next: nat := 0, N_SEC_TRACK;
    while i < 4 && next != 0 && next < szDrv
      invariant && i <= 4 && t[0] == 0 && (i == 0 ==> next == N_SEC_TRACK && t == ZERO_SECTOR)
                && (i > 0 ==> LdDword(t, MBR_TABLE + PTE_ST_LBA) == N_SEC_TRACK)
      invariant (i == 1 ==> Single(t)) && (i > 0 ==> N_SEC_TRACK < szDrv)
      invariant i > 0 && plst != [] ==> next >= N_SEC_TRACK + PartSize(plst[0], N_SEC_TRACK, szDrv)
      invariant i > 1 && plst != [] ==> N_SEC_TRACK + PartSize(plst[0], N_SEC_TRACK, szDrv) < szDrv
    {
      var size := PartSize(if i < |plst| then plst[i] else 0, next, szDrv);
      if size == 0 {
        break;
      }
      ghost var u := t;
      t := PutEntry(t, i, next, size, sys, heads);
      if i > 0 {
        FirstEntryKept(u, t, i);
      }
      i, next := i + 1, next + size;
    }
    s := StWord(t, BS_55AA, SIGNATURE);
  }

  lemma FirstEntryKept(t: Sector, s: Sector, i: nat)
    requires && 0 < i < 4
             && forall j ::
                  0 <= j < 512 && !(MBR_TABLE + i * SZ_PTE <= j < MBR_TABLE + i * SZ_PTE + SZ_PTE) ==> s[j] == t[j]
    ensures LdDword(s, MBR_TABLE + PTE_ST_LBA) == LdDword(t, MBR_TABLE + PTE_ST_LBA)
  {
  }

  // The volume.

  /** The first sector of a fresh FAT. */
  function FirstFat(t: FatType, z: Sector): Sector {
    match t
    case FAT12 => StDword(z, 0, 0xFF_FFF8)
    case FAT16 => StDword(z, 0, 0xFFFF_FFF8)
    case FAT32 => StDword(StDword(StDword(z, 0, 0xFFFF_FFF8), 4, 0xFFFF_FFFF), 8, 0x0FFF_FFFF)
  }

  /** A region of the drive: its first sector is `f`, the others are `z`. */
  predicate Fresh(d: Disk, at: nat, n: nat, f: Sector, z: Sector) {
    at + n <= |d| && forall s :: at <= s < at + n ==> d[s] == if s == at then f else z
  }

  /** Sectors of the root directory region or the root directory's cluster. */
  function RootLen(p: Plan): nat {
    if p.fatType == FAT32 then p.pau else p.szDir
  }

  function FatBase(p: Plan, bVol: nat): nat {
    bVol + p.szRsv
  }

  function RootBase(p: Plan, bVol: nat, o: Options): nat {
    bVol + p.szRsv + FatArea(o.nFat, p.szFat)
  }

  /** A fresh volume lies at `bVol`. */
  predicate FreshVolume(d: Disk, bVol: nat, size: nat, p: Plan, o: Options, z: Sector) {
    && bVol + size <= |d| && 0 < size && Records(d[bVol], p, size, o)
    && Fresh(d, FatBase(p, bVol), p.szFat, FirstFat(p.fatType, z), z)
    && (o.nFat == 2 ==> Fresh(d, FatBase(p, bVol) + p.szFat, p.szFat, FirstFat(p.fatType, z), z))
    && Fresh(d, RootBase(p, bVol, o), RootLen(p), z, z)
  }

  predicate HasInfo(d: Disk, bVol: nat, p: Plan, z: Sector) {
    p.fatType == FAT32 ==> 0 < p.nClst && bVol + 1 < |d| && d[bVol + 1] == FsInfo(z, p.nClst - 1, 2)
  }

  lemma LaidFresh(d: Disk, at: nat, n: nat, f: Sector, z: Sector)
    requires at + n <= |d|
    ensures Fresh(Laid(d, at, n, f, z), at, n, f, z)
  {
    var e := Laid(d, at, n, f, z);
    forall s | at <= s < at + n ensures e[s] == if s == at then f else z {
      LaidAt(d, at, n, f, z, s);
    }
  }

  lemma LaidKeeps(d: Disk, at: nat, n: nat, f: Sector, z: Sector, at': nat, n': nat, f': Sector)
    requires at + n <= |d| && Fresh(d, at', n', f', z) && (at' + n' <= at || at + n <= at')
    ensures Fresh(Laid(d, at, n, f, z), at', n', f', z)
  {
    var e := Laid(d, at, n, f, z);
    forall s | at' <= s < at' + n' ensures e[s] == if s == at' then f' else z {
      LaidAt(d, at, n, f, z, s);
    }
  }

  /** The reserved area of a volume. */
  method WriteReserved(drive: Drive, vbr: Sector, p: Plan, bVol: nat) returns (ok: bool)
    requires bVol + 32 <= |drive.disk| && 0 < p.nClst
    modifies drive
    ensures |drive.disk| == |old(drive.disk)| && (!ok ==> drive.broken)
    ensures ok ==> drive.disk[bVol] == vbr && (!drive.lost ==> HasInfo(drive.disk, bVol, p, ZERO_SECTOR))
  {
    ok := drive.Write(vbr, bVol);
    if ok && p.fatType == FAT32 {
      drive.WriteAnyway(vbr, bVol + 6);
      var info := FsInfo(ZERO_SECTOR, p.nClst - 1, 2);
      drive.WriteAnyway(info, bVol + 7);
      drive.WriteAnyway(info, bVol + 1);
    }
  }

  /** The FATs and the root directory of a volume. */
  method WriteTables(drive: Drive, p: Plan, bVol: nat, o: Options, szBuf: nat) returns (ok: bool)
    requires 1 <= o.nFat <= 2 && 0 < p.szFat && 0 < RootLen(p) && 0 < p.szRsv && 0 < szBuf
    requires RootBase(p, bVol, o) + RootLen(p) <= |drive.disk|
    modifies drive
    ensures |drive.disk| == |old(drive.disk)| && (!ok ==> drive.broken)
    ensures ok ==> Fresh(drive.disk, FatBase(p, bVol), p.szFat, FirstFat(p.fatType, ZERO_SECTOR), ZERO_SECTOR)
    ensures ok && o.nFat == 2 ==>
              Fresh(drive.disk, FatBase(p, bVol) + p.szFat, p.szFat, FirstFat(p.fatType, ZERO_SECTOR), ZERO_SECTOR)
    ensures ok ==> Fresh(drive.disk, RootBase(p, bVol, o), RootLen(p), ZERO_SECTOR, ZERO_SECTOR)
    ensures ok ==> forall s :: 0 <= s < FatBase(p, bVol) ==> drive.disk[s] == old(drive.disk)[s]
    ensures drive.lost == old(drive.lost)
  {
    var first: Sector := FirstFat(p.fatType, ZERO_SECTOR);
    ok := WriteFats(drive, first, p, bVol, o, szBuf);
    if ok {
      var root := RootBase(p, bVol, o);
      ghost var d := drive.disk;
      ok := drive.FillRegion(ZERO_SECTOR, root, RootLen(p), szBuf);
      LaidFresh(d, root, RootLen(p), ZERO_SECTOR, ZERO_SECTOR);
      LaidKeeps(d, root, RootLen(p), ZERO_SECTOR, ZERO_SECTOR, FatBase(p, bVol), p.szFat, first);
      if o.nFat == 2 {
        LaidKeeps(d, root, RootLen(p), ZERO_SECTOR, ZERO_SECTOR, FatBase(p, bVol) + p.szFat, p.szFat, first);
      }
      if ok {
        forall s | 0 <= s < FatBase(p, bVol) ensures drive.disk[s] == d[s] {
          LaidAt(d, root, RootLen(p), ZERO_SECTOR, ZERO_SECTOR, s);
        }
      }
    }
  }

  method WriteFats(drive: Drive, first: Sector, p: Plan, bVol: nat, o: Options, szBuf: nat) returns (ok: bool)
    requires 1 <= o.nFat <= 2 && 0 < p.szFat && 0 < szBuf && RootBase(p, bVol, o) <= |drive.disk|
    modifies drive
    ensures |drive.disk| == |old(drive.disk)| && drive.lost == old(drive.lost) && (!ok ==> drive.broken)
    ensures ok ==> Fresh(drive.disk, FatBase(p, bVol), p.szFat, first, ZERO_SECTOR)
    ensures ok && o.nFat == 2 ==> Fresh(drive.disk, FatBase(p, bVol) + p.szFat, p.szFat, first, ZERO_SECTOR)
    ensures ok ==> forall s :: 0 <= s < FatBase(p, bVol) ==> drive.disk[s] == old(drive.disk)[s]
  {
    var base := FatBase(p, bVol);
    ok := drive.FillRegion(first, base, p.szFat, szBuf);
    LaidFresh(old(drive.disk), base, p.szFat, first, ZERO_SECTOR);
    if ok {
      forall s | 0 <= s < base ensures drive.disk[s] == old(drive.disk)[s] {
        LaidAt(old(drive.disk), base, p.szFat, first, ZERO_SECTOR, s);
      }
    }
    if ok && o.nFat == 2 {
      ghost var d := drive.disk;
      ok := drive.FillRegion(first, base + p.szFat, p.szFat, szBuf);
      LaidFresh(d, base + p.szFat, p.szFat, first, ZERO_SECTOR);
      LaidKeeps(d, base + p.szFat, p.szFat, first, ZERO_SECTOR, base, p.szFat, first);
      if ok {
        forall s | 0 <= s < base ensures drive.disk[s] == d[s] {
          LaidAt(d, base + p.szFat, p.szFat, first, ZERO_SECTOR, s);
        }
      }
    }
  }

  /** Where the volume of a drive starts: behind the first track if there is a partition table. */
  function VolumeStart(sectors: nat, sfd: bool): nat {
    if sfd || sectors <= N_SEC_TRACK then 0 else N_SEC_TRACK
  }

  /** A drive that has been formatted by a plan. */
  predicate Formatted(d: Disk, sfd: bool, o: Options, p: Plan, z: Sector) {
    var bVol := VolumeStart(|d|, sfd);
    var size := |d| - bVol;
    && 128 <= size && |d| < WORD32 && ValidOptions(o) && GoodPlan(size, o, p)
    && FreshVolume(d, bVol, size, p, o, z) && (!sfd ==> IsMbr(d[0], N_SEC_TRACK))
  }

  lemma RootFits(size: nat, p: Plan, o: Options)
    requires ValidOptions(o) && GoodPlan(size, o, p)
    ensures 0 < p.szFat && 0 < RootLen(p) && p.szRsv + FatArea(o.nFat, p.szFat) + RootLen(p) <= size
  {
    ClusterSizeBound(p.pau);
  }

  lemma MbrKeeps(d: Disk, bVol: nat, size: nat, p: Plan, o: Options, z: Sector, m: Sector)
    requires 0 < bVol && FreshVolume(d, bVol, size, p, o, z) && 0 < |d|
    ensures FreshVolume(d[0 := m], bVol, size, p, o, z)
  {
  }

  /** The system id of the partition. */
  function SystemId(p: Plan, size: nat): byte {
    if p.fatType == FAT32 then 0x0C else if size >= 0x1_0000 then 0x06 else if p.fatType == FAT16 then 0x04 else 0x01
  }

  /** f_mkfs: a drive formatted. Without a disk error it is formatted by the plan chosen for its size; it is given up
      exactly when there is none. */
  method Mkfs(drive: Drive, sfd: bool, o: Options, vsn: nat, szBuf: nat) returns (res: Outcome, p: Plan)
    requires ValidOptions(o) && |drive.disk| < WORD32 && 0 < szBuf && !drive.lost
    modifies drive
    ensures |drive.disk| == |old(drive.disk)|
    ensures (var size := |drive.disk| - VolumeStart(|drive.disk|, sfd);
      && (res == MkfsAborted <==> size < 128 || PlanFor(size, !o.fat, o.au, o) == Aborted)
      && (res == Done ==> PlanFor(size, !o.fat, o.au, o) == Chosen(p)))
    ensures res == DiskError ==> drive.broken
    ensures res == Done ==> Formatted(drive.disk, sfd, o, p, ZERO_SECTOR)
    ensures res == Done && !drive.lost ==> HasInfo(drive.disk, VolumeStart(|drive.disk|, sfd), p, ZERO_SECTOR)
  {
    var bVol, size := 0, |drive.disk|;
    p := Plan(FAT12, 1, 1, 1, 1, 1);
    if !sfd && size > N_SEC_TRACK {
      bVol := N_SEC_TRACK;
      size := size - bVol;
    }
    if size < 128 {
      return MkfsAborted, p;
    }
    var c := ChoosePlan(size, o);
    if c.Aborted? {
      return MkfsAborted, p;
    }
    p := c.plan;
    var ok := WriteVolume(drive, p, size, bVol, vsn, o, szBuf);
    if ok && !sfd {
      ok := WritePartition(drive, p, size, o);
    }
    if ok {
      ok := drive.Sync();
    }
    res := if ok then Done else DiskError;
  }

  /** The volume written. */
  method WriteVolume(drive: Drive, p: Plan, size: nat, bVol: nat, vsn: nat, o: Options, szBuf: nat) returns (ok: bool)
    requires ValidOptions(o) && GoodPlan(size, o, p) && 128 <= size && bVol + size <= |drive.disk| && 0 < szBuf
    modifies drive
    ensures |drive.disk| == |old(drive.disk)| && (!ok ==> drive.broken)
    ensures ok ==>
              && FreshVolume(drive.disk, bVol, size, p, o, ZERO_SECTOR)
              && (!drive.lost ==> HasInfo(drive.disk, bVol, p, ZERO_SECTOR))
  {
    RootFits(size, p, o);
    var vbr := MakeVbr(p, size, bVol, vsn, o);
    ok := WriteReserved(drive, vbr, p, bVol);
    if ok {
      ok := WriteTables(drive, p, bVol, o, szBuf);
    }
  }

  /** The partition table written. */
  method WritePartition(drive: Drive, p: Plan, size: nat, o: Options) returns (ok: bool)
    requires && |drive.disk| < WORD32 && 128 <= size && N_SEC_TRACK + size == |drive.disk|
             && FreshVolume(drive.disk, N_SEC_TRACK, size, p, o, ZERO_SECTOR)
    modifies drive
    ensures |drive.disk| == |old(drive.disk)| && drive.lost == old(drive.lost) && (!ok ==> drive.broken)
    ensures ok ==>
              && IsMbr(drive.disk[0], N_SEC_TRACK) && FreshVolume(drive.disk, N_SEC_TRACK, size, p, o, ZERO_SECTOR)
              && drive.disk == old(drive.disk)[0 := drive.disk[0]]
  {
    var mbr := MakeMbr(|drive.disk|, [size, 0], SystemId(p, size));
    MbrKeeps(drive.disk, N_SEC_TRACK, size, p, o, ZERO_SECTOR, mbr);
    ok := drive.Write(mbr, 0);
  }

  /** With the default options f_mkfs gives up only on drives of fewer than 191 sectors, of which 63 are the first
      track. */
  lemma DefaultGivesUp(sectors: nat)
    requires sectors < WORD32
    ensures (var size := sectors - VolumeStart(sectors, false);
      size < 128 || PlanFor(size, !DEFAULT.fat, DEFAULT.au, DEFAULT) == Aborted <==> sectors < 191)
  {
    var size := sectors - VolumeStart(sectors, false);
    if size >= 128 {
      DefaultChosen(size);
    }
  }
}
