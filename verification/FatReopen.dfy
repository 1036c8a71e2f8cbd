/** What has been saved survives: the drive mounted anew, and a file opened on it again. */
module FatReopen {
  import opened FatBytes
  import opened FatTable
  import opened FatVolume
  import opened FatChain
  import opened FatAlloc
  import opened FatLayout
  import opened FatCursor
  import opened FatState
  import opened FatEntry
  import opened FatFile
  import opened FatFiles
  import opened FatSession
  import opened FatBoot
  import opened FatFormat
  import opened FatMount

  /** The sectors before the FATs are such that mounting comes to this volume: its boot record is at the start of the
      drive or of the only partition. */
  predicate Booted(g: Geometry, front: Disk) {
    && g.volbase < |front| && CheckFs(front[g.volbase]) == 0
    && ReadVbr(front[g.volbase], g.volbase, g.sectors) == Mounted(g)
    && (g.volbase > 0 ==> CheckFs(front[0]) == 2 && PartStart(front[0], 0) == g.volbase && Single(front[0]))
  }

  /** A drive that was mounted as the volume is such a drive. */
  lemma MountedIsBooted(g: VolumeGeometry, d: Disk)
    requires |d| == g.sectors && Lone(d) && PlaceOf(d) == g.volbase && VolumeAt(d, g.volbase) == Mounted(g)
    ensures Booted(g, ViewOf(g, d).front)
  {
    var all := [true, true, true, true, true];
    VolumeAtIs(d, g.volbase);
    FindUnderIs(d, all);
    ViewIs(g, d);
    ViewSizes(g, d);
    if g.volbase > 0 {
      var k := ScanFinds(d, all, 0);
      assert !HoldsFat(d, 1) && !HoldsFat(d, 2) && !HoldsFat(d, 3);
    }
  }

  /** And the other way round. */
  lemma BootedMounts(g: VolumeGeometry, d: Disk)
    requires |d| == g.sectors && Booted(g, ViewOf(g, d).front)
    ensures Lone(d) && NoRival(d) && PlaceOf(d) == g.volbase && VolumeAt(d, g.volbase) == Mounted(g)
  {
    VolumeAtIs(d, g.volbase);
    FindUnderIs(d, [true, true, true, true, true]);
    ViewIs(g, d);
    ViewSizes(g, d);
    if g.volbase > 0 {
      assert HoldsFat(d, 0);
    }
    LoneHasNoRival(d);
  }

  /** It stays one whatever is done to files. */
  lemma BootedStays(g: VolumeGeometry, front: Disk, front': Disk)
    requires Booted(g, front) && FrontKept(g, front, front')
    ensures Booted(g, front')
  {
  }

  predicate Recorded(g: Geometry, v: View) {
    && g.fatType == FAT32 && g.volbase + 1 < |v.front|
    && ExtOf(v.front[g.volbase]).fsInfo == 1 && IsInfo(v.front[g.volbase + 1])
  }

  /** The free-cluster record, if the boot record says that there is one and it looks like one, tells an unknown count
      or the right one. */
  ghost predicate RecordRight(g: VolumeGeometry, v: View) {
    Recorded(g, v) ==> Counted(g, v.table, LdDword(v.front[g.volbase + 1], 488))
  }

  /** What mounting finds it to be. */
  lemma CountFound(g: VolumeGeometry, d: Disk, f: Found)
    requires |d| == g.sectors && f.g == g && InfoFrom(d, f) && RecordRight(g, ViewOf(g, d))
    ensures Counted(g, ViewOf(g, d).table, f.freeClst)
  {
    ViewIs(g, d);
    ViewSizes(g, d);
  }

  /** The volume mounted anew from what is on its drive; null if some sector cannot be read. */
  method Remount(fs: Volume) returns (vol: Volume?, drive: Drive)
    requires OnDisk(fs) && Booted(fs.g, fs.Image().front)
    ensures fresh(drive) && drive.disk == fs.disk && (vol == null ==> drive.failed)
    ensures vol != null ==> fresh(vol) && vol.g == fs.g && vol.Valid() && vol.Image() == fs.Image()
    ensures vol != null && RecordRight(fs.g, fs.Image()) ==> CountOk(vol)
  {
    vol := null;
    drive := new Drive(fs.disk);
    BootedMounts(fs.g, fs.disk);
    var res, f := MountVolume(drive);
    if res == MountOk {
      fs.ValidIs();
      vol := new Volume(f.g, drive.disk, f.win, f.winsect, f.lastClst, f.freeClst, f.info, fs.mirrorLost);
      if RecordRight(fs.g, fs.Image()) {
        CountFound(fs.g, fs.disk, f);
      }
    }
  }

  /** The directory entry of a file brought into the window of a volume. */
  method EntryOf(vol: Volume, s: nat) returns (res: FResult)
    requires vol.Valid() && RestBase(vol.g) <= s < vol.g.sectors
    modifies vol
    ensures vol.Valid() && vol.Image() == old(vol.Image()) && Behind(vol.g, s) < |vol.Image().rest|
    ensures if res == FR_OK then vol.winsect == s && vol.win == vol.Image().rest[Behind(vol.g, s)]
            else res == FR_DISK_ERR && s != old(vol.winsect)
    ensures vol.freeClst == old(vol.freeClst)
  {
    res := vol.MoveWindow(s);
    ViewRest(vol.g, vol.Logical(), s, vol.win);
  }

  /** The directory entry at a place tells a first cluster and a size. */
  predicate Told(g: VolumeGeometry, rest: Disk, s: nat, ofs: nat, sclust: nat, size: nat) {
    && Behind(g, s) < |rest| && ofs + 32 <= 512 && LdClust(rest[Behind(g, s)], ofs, g.fatType) == sclust
    && LdDword(rest[Behind(g, s)], ofs + DIR_FILE_SIZE) == size
  }

  /** The file is open on the volume at its start, and holds `data`. */
  ghost predicate OpenWith(f: File, vol: Volume, data: seq<byte>)
    reads f, vol
  {
    && f.fs == vol && vol.Valid() && f.err == FR_OK && f.fptr == 0
    && Core(vol.g, vol.Image(), vol.winsect, f.Cur()) && Position(vol.g, f.Cur())
    && Contents(vol.g, vol.Image(), f.Cur()) == data
  }

  /** A file opened by what its directory entry says, if that can be read. */
  method OpenAt(vol: Volume, dirSect: nat, dirOfs: nat, ghost w: nat, ghost x: Cursor) returns (res: FResult, f: File?)
    requires vol.Valid() && Core(vol.g, vol.Image(), w, x) && !x.dirty
    requires Placed(vol.g, vol.Fat(), x.chain, x.sect, dirSect)
    requires Told(vol.g, vol.Image().rest, dirSect, dirOfs, x.sclust, x.objsize)
    modifies vol
    ensures vol.Valid() && vol.Image() == old(vol.Image()) && vol.freeClst == old(vol.freeClst)
    ensures f != null ==> fresh(f) && OpenWith(f, vol, Contents(vol.g, vol.Image(), x))
    ensures if res == FR_OK then f != null else f == null && res == FR_DISK_ERR && dirSect != old(vol.winsect)
  {
    f := null;
    OnDrive(vol.g, vol.Image(), w, x, dirSect);
    PlacedIs(vol.g, vol.Fat(), x.chain, x.sect, dirSect);
    res := EntryOf(vol, dirSect);
    if res == FR_OK {
      var sclust, size := LdClust(vol.win, dirOfs, vol.g.fatType), LdDword(vol.win, dirOfs + DIR_FILE_SIZE);
      f := new File(vol, true, true, dirSect, dirOfs, sclust, size, x.chain);
    }
  }

  /** What could not be done. */
  datatype Loss = NoLoss | SaveLoss | MountLoss | EntryLoss

  /** The file opened on a volume mounted anew, unless a read of the drive fails in mounting, or that of the sector with
      the directory entry. */
  method Reopen(f: File) returns (loss: Loss, again: File?, drive: Drive)
    requires f.Valid() && f.err == FR_OK && f.EntryPlaced() && !f.dirty
    requires Told(f.fs.g, f.fs.Image().rest, f.dirSect, f.dirOfs, f.sclust, f.objsize)
    requires OnDisk(f.fs) && Booted(f.fs.g, f.fs.Image().front)
    ensures again != null ==>
              fresh(again) && fresh(again.fs) && again.fs.g == f.fs.g && OpenWith(again, again.fs, f.Data())
    ensures again != null && RecordRight(f.fs.g, f.fs.Image()) ==> CountOk(again.fs)
    ensures fresh(drive) && drive.disk == f.fs.disk
    ensures if again != null then loss == NoLoss else loss == EntryLoss || (loss == MountLoss && drive.failed)
  {
    again, loss := null, MountLoss;
    var vol;
    vol, drive := Remount(f.fs);
    if vol != null {
      var res;
      res, again := OpenAt(vol, f.dirSect, f.dirOfs, f.fs.winsect, f.Cur());
      loss := if res == FR_OK then NoLoss else EntryLoss;
    }
  }

  /** What is open, with a count that is right, is fit for use. */
  lemma OpenIsValid(f: File, data: seq<byte>)
    requires OpenWith(f, f.fs, data) && CountOk(f.fs)
    ensures f.Valid() && f.Data() == data
  {
    CoreFacts(f.fs.g, f.fs.Image(), f.fs.winsect, f.Cur());
  }

  /** f_sync leaves a right record: on FAT32 if it was right and nothing was due, or if the drive took it. */
  lemma RecordStaysRight(g: VolumeGeometry, due: bool, taken: bool, freeClst: nat, v: View, v': View)
    requires RecordLeft(g, true, due, taken, freeClst, v.front, v'.front) && v'.table == v.table
    requires freeClst < 0x1_0000_0000 && Counted(g, v.table, freeClst)
    requires g.fatType != FAT32 || (if due then taken else RecordRight(g, v))
    ensures RecordRight(g, v')
  {
    RecordLeftIs(g, true, due, taken, freeClst, v.front, v'.front);
  }

  /** f_sync, told by what mounting will find. */
  method SyncBooted(f: File, tm: nat) returns (res: FResult, ghost right: bool)
    requires f.Valid() && f.err == FR_OK && f.EntryPlaced() && f.modified
    requires Booted(f.fs.g, f.fs.Image().front) && f.fs.freeClst < 0x1_0000_0000
    modifies f, f.fs
    ensures f.Valid() && f.err == FR_OK && f.EntryPlaced() && f.Data() == old(f.Data())
    ensures Booted(f.fs.g, f.fs.Image().front)
    ensures res == FR_OK ==> OnDisk(f.fs) && !f.dirty
    ensures res == FR_OK ==> Told(f.fs.g, f.fs.Image().rest, f.dirSect, f.dirOfs, f.sclust, f.objsize)
    ensures RightAfter(f.fs.g, f.fs.useInfo, old(f.fs.fsiDirty), old(f.fs.Image()), right)
    ensures res == FR_OK && right ==> RecordRight(f.fs.g, f.fs.Image())
    ensures res != FR_OK ==> res == FR_DISK_ERR
  {
    ghost var v, due, taken := f.fs.Image(), InfoDue(f.fs.g, f.fs.useInfo, f.fs.fsiDirty), false;
    res, taken := f.Sync(tm);
    right := f.fs.g.fatType != FAT32 || (if due then taken else RecordRight(f.fs.g, v));
    RecordLeftIs(f.fs.g, res == FR_OK, due, taken, f.fs.freeClst, v.front, f.fs.Image().front);
    BootedStays(f.fs.g, v.front, f.fs.Image().front);
    f.fs.ValidIs();
    if res == FR_OK && right {
      RecordStaysRight(f.fs.g, due, taken, f.fs.freeClst, v, f.fs.Image());
    }
  }

  /** Without a record to be written a right one stays right, and none is needed on FAT12 and FAT16. */
  ghost predicate RightAfter(g: VolumeGeometry, useInfo: bool, changed: bool, v: View, right: bool) {
    g.fatType != FAT32 || (!InfoDue(g, useInfo, changed) && RecordRight(g, v)) ==> right
  }

  /** f_sync, and then the file opened on a volume mounted anew: it holds what it held, and nothing that was kept in
      memory only is needed. It is fit for use if the free-cluster record is right. There is no such file only if
      f_sync reports a disk error, or a read of the drive fails in mounting or of the sector with the entry. */
  method SyncThenReopen(f: File, tm: nat)
    returns (res: FResult, loss: Loss, again: File?, drive: Drive?, ghost right: bool)
    requires f.Valid() && f.err == FR_OK && f.EntryPlaced() && f.modified
    requires Booted(f.fs.g, f.fs.Image().front) && f.fs.freeClst < 0x1_0000_0000
    modifies f, f.fs
    ensures f.Valid() && f.Data() == old(f.Data()) && Booted(f.fs.g, f.fs.Image().front)
    ensures match loss
            case NoLoss => res == FR_OK && again != null
            case SaveLoss => res == FR_DISK_ERR && again == null
            case MountLoss => res == FR_OK && again == null && drive != null && drive.disk == f.fs.disk && drive.failed
            case EntryLoss => res == FR_OK && again == null
    ensures again != null ==>
              && fresh(again) && fresh(again.fs) && again.fs.g == f.fs.g
              && OpenWith(again, again.fs, old(f.Data())) && (right ==> again.Valid())
    ensures RightAfter(f.fs.g, f.fs.useInfo, old(f.fs.fsiDirty), old(f.fs.Image()), right)
  {
    loss, again, drive := SaveLoss, null, null;
    res, right := SyncBooted(f, tm);
    if res == FR_OK {
      loss, again, drive := Reopen(f);
      if again != null && right {
        OpenIsValid(again, f.Data());
      }
    }
  }
}
