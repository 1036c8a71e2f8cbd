/** The directory entry of a file, and making the volume durable: sync_fs. */
module FatEntry {
  import opened FatBytes
  import opened FatTable
  import opened FatVolume

  const DIR_ATTR := 11
  const DIR_LST_ACC_DATE := 18
  const DIR_FST_CLUS_HI := 20
  const DIR_MOD_TIME := 22
  const DIR_FST_CLUS_LO := 26
  const DIR_FILE_SIZE := 28
  const AM_ARC := 0x20

  /** The attribute with the archive bit set. */
  function Archived(a: byte): byte {
    if a / AM_ARC % 2 == 1 then a else a + AM_ARC
  }

  /** st_clust. */
  function StClust(s: Sector, o: nat, t: FatType, cl: nat): Sector
    requires o + 32 <= 512
  {
    if t == FAT32 then StWord(StWord(s, o + DIR_FST_CLUS_LO, cl), o + DIR_FST_CLUS_HI, cl / 0x1_0000)
    else StWord(s, o + DIR_FST_CLUS_LO, cl)
  }

  /** ld_clust. */
  function LdClust(s: Sector, o: nat, t: FatType): nat
    requires o + 32 <= 512
  {
    LdWord(s, o + DIR_FST_CLUS_LO) + if t == FAT32 then 0x1_0000 * LdWord(s, o + DIR_FST_CLUS_HI) else 0
  }

  /** The entry at `o` as f_sync rewrites it. */
  function Updated(s: Sector, o: nat, t: FatType, sclust: nat, size: nat, tm: nat): Sector
    requires o + 32 <= 512
  {
    var s1: Sector := s[o + DIR_ATTR := Archived(s[o + DIR_ATTR])];
    var s2: Sector := StDword(StClust(s1, o, t, sclust), o + DIR_FILE_SIZE, size);
    StWord(StDword(s2, o + DIR_MOD_TIME, tm), o + DIR_LST_ACC_DATE, 0)
  }

  lemma StClustTells(s: Sector, o: nat, t: FatType, cl: nat)
    requires o + 32 <= 512 && cl < (if t == FAT32 then 0x1_0000_0000 else 0x1_0000)
    ensures LdClust(StClust(s, o, t, cl), o, t) == cl
  {
  }

  /** Neither the size nor a time or date is where the first cluster is. */
  lemma ClustApart(s: Sector, o: nat, t: FatType, p: nat, v: nat)
    requires && o + 32 <= 512 && o <= p && p + 4 <= 512
             && (p + 2 <= o + DIR_FST_CLUS_HI || p == o + DIR_MOD_TIME || p == o + DIR_FILE_SIZE)
    ensures p + 2 <= o + DIR_FST_CLUS_HI ==> LdClust(StWord(s, p, v), o, t) == LdClust(s, o, t)
    ensures p >= o + DIR_MOD_TIME ==> LdClust(StDword(s, p, v), o, t) == LdClust(s, o, t)
  {
  }

  lemma SizeApart(s: Sector, o: nat, p: nat, v: nat)
    requires o + 32 <= 512 && p + 4 <= o + DIR_FILE_SIZE
    ensures LdDword(StWord(s, p, v), o + DIR_FILE_SIZE) == LdDword(s, o + DIR_FILE_SIZE)
    ensures LdDword(StDword(s, p, v), o + DIR_FILE_SIZE) == LdDword(s, o + DIR_FILE_SIZE)
  {
  }

  lemma SizeTells(s: Sector, o: nat, size: nat)
    requires o + 32 <= 512 && size < 0x1_0000_0000
    ensures LdDword(StDword(s, o + DIR_FILE_SIZE, size), o + DIR_FILE_SIZE) == size
  {
  }

  /** It then tells the file's first cluster and its size. */
  lemma UpdatedTells(s: Sector, o: nat, t: FatType, sclust: nat, size: nat, tm: nat)
    requires o + 32 <= 512 && sclust < (if t == FAT32 then 0x1_0000_0000 else 0x1_0000) && size < 0x1_0000_0000
    ensures LdClust(Updated(s, o, t, sclust, size, tm), o, t) == sclust
    ensures LdDword(Updated(s, o, t, sclust, size, tm), o + DIR_FILE_SIZE) == size
  {
    var s1: Sector := s[o + DIR_ATTR := Archived(s[o + DIR_ATTR])];
    var s2 := StClust(s1, o, t, sclust);
    StClustTells(s1, o, t, sclust);
    var s3: Sector := StDword(s2, o + DIR_FILE_SIZE, size);
    ClustApart(s2, o, t, o + DIR_FILE_SIZE, size);
    SizeTells(s2, o, size);
    var s4: Sector := StDword(s3, o + DIR_MOD_TIME, tm);
    ClustApart(s3, o, t, o + DIR_MOD_TIME, tm);
    SizeApart(s3, o, o + DIR_MOD_TIME, tm);
    ClustApart(s4, o, t, o + DIR_LST_ACC_DATE, 0);
    SizeApart(s4, o, o + DIR_LST_ACC_DATE, 0);
  }

  /** No byte outside it has changed. */
  lemma UpdatedElsewhere(s: Sector, o: nat, t: FatType, sclust: nat, size: nat, tm: nat, j: nat)
    requires o + 32 <= 512 && j < 512 && !(o + DIR_ATTR <= j < o + 32)
    ensures Updated(s, o, t, sclust, size, tm)[j] == s[j]
  {
  }

  /** From `s` to `s'` the entry at `o` has come to tell first cluster `sclust` and size `size`; nothing outside it,
      nor its name, has changed. */
  ghost predicate Tells(s: Sector, s': Sector, o: nat, t: FatType, sclust: nat, size: nat) {
    && o + 32 <= 512 && LdClust(s', o, t) == sclust && LdDword(s', o + DIR_FILE_SIZE) == size
    && forall j :: 0 <= j < 512 && !(o + DIR_ATTR <= j < o + 32) ==> s'[j] == s[j]
  }

  lemma UpdatedIs(g: VolumeGeometry, s: Sector, o: nat, sclust: nat, size: nat, tm: nat)
    requires o + 32 <= 512 && sclust < g.nFatent && size < 0x1_0000_0000
    ensures Tells(s, Updated(s, o, g.fatType, sclust, size, tm), o, g.fatType, sclust, size)
  {
    UpdatedTells(s, o, g.fatType, sclust, size, tm);
    forall j: nat | j < 512 && !(o + DIR_ATTR <= j < o + 32)
      ensures Updated(s, o, g.fatType, sclust, size, tm)[j] == s[j]
    {
      UpdatedElsewhere(s, o, g.fatType, sclust, size, tm, j);
    }
  }

  /** The FSInfo sector as sync_fs fills it, from a cleared one. */
  function FsInfo(zero: Sector, freeClst: nat, lastClst: nat): Sector {
    StDword(StDword(StDword(StDword(StWord(zero, 510, 0xAA55), 0, 0x4161_5252), 484, 0x6141_7272), 488, freeClst),
        492, lastClst)
  }

  lemma ViewFront(g: VolumeGeometry, d: Disk, s: nat, data: Sector)
    requires |d| == g.sectors && s < g.fatbase
    ensures |ViewOf(g, d).front| == g.fatbase
    ensures ViewOf(g, d[s := data]) == ViewOf(g, d).(front := ViewOf(g, d).front[s := data])
  {
    var d' := d[s := data];
    ViewIs(g, d);
    ViewIs(g, d');
    SameSlice(d, d', g.fatbase, g.fatbase + g.fsize);
    SameSlice(d, d', RestBase(g), |d|);
  }

  /** The free-cluster record is to be written. */
  predicate InfoDue(g: Geometry, useInfo: bool, changed: bool) {
    g.fatType == FAT32 && useInfo && changed
  }

  predicate IsInfo(s: Sector) {
    LdWord(s, 510) == 0xAA55 && LdDword(s, 0) == 0x4161_5252 && LdDword(s, 484) == 0x6141_7272
  }

  /** The record tells count and hint. */
  predicate InfoTells(s: Sector, freeClst: nat, lastClst: nat) {
    IsInfo(s) && LdDword(s, 488) == freeClst && LdDword(s, 492) == lastClst
  }

  lemma FsInfoCounts(zero: Sector, freeClst: nat, lastClst: nat)
    requires freeClst < 0x1_0000_0000
    ensures IsInfo(FsInfo(zero, freeClst, lastClst)) && LdDword(FsInfo(zero, freeClst, lastClst), 488) == freeClst
  {
    var s1: Sector := StWord(zero, 510, 0xAA55);
    var s2: Sector := StDword(s1, 0, 0x4161_5252);
    var s3: Sector := StDword(s2, 484, 0x6141_7272);
    var s4: Sector := StDword(s3, 488, freeClst);
    assert IsInfo(s4) && LdDword(s4, 488) == freeClst;
  }

  lemma FsInfoTells(zero: Sector, freeClst: nat, lastClst: nat)
    requires freeClst < 0x1_0000_0000 && lastClst < 0x1_0000_0000
    ensures InfoTells(FsInfo(zero, freeClst, lastClst), freeClst, lastClst)
  {
    FsInfoCounts(zero, freeClst, lastClst);
  }

  /** What sync_fs leaves of the sectors before the FATs: all of them, but for the record where it was due. It may
      then hold anything, as the result of the write is not looked at. */
  ghost predicate InfoOutcome(g: Geometry, due: bool, front: Disk, res: FResult, front': Disk) {
    if due && g.volbase + 1 < |front| then
      || (|front'| == |front| && front' == front[g.volbase + 1 := front'[g.volbase + 1]])
      || (res != FR_OK && front' == front)
    else front' == front
  }

  /** Before the FATs nothing has changed but the free-cluster record. */
  ghost predicate FrontKept(g: Geometry, front: Disk, front': Disk) {
    |front'| == |front| && forall s :: 0 <= s < |front| && s != g.volbase + 1 ==> front'[s] == front[s]
  }

  /** Nothing but the record has changed, and if all went `ok`, that has been written if it was due and the drive took
      it. The countdown only keeps proofs from looking inside where RecordLeftIs is not called. */
  ghost predicate RecordLeft(g: Geometry, ok: bool, due: bool, taken: bool, freeClst: nat, front: Disk, front': Disk) {
    RecordLeftAfter(g, ok, due, taken, freeClst, front, front', |front|)
  }

  ghost predicate OpenRecordLeft(g: Geometry, ok: bool, due: bool, taken: bool, freeClst: nat,
        front: Disk, front': Disk) {
    && FrontKept(g, front, front') && (ok && !due ==> front' == front)
    && (ok && due && taken && freeClst < 0x1_0000_0000 ==>
          g.volbase + 1 < |front'| && IsInfo(front'[g.volbase + 1]) && LdDword(front'[g.volbase + 1], 488) == freeClst)
  }

  ghost predicate RecordLeftAfter(g: Geometry, ok: bool, due: bool, taken: bool, freeClst: nat,
        front: Disk, front': Disk, countdown: nat) {
    if countdown > 0 then RecordLeftAfter(g, ok, due, taken, freeClst, front, front', countdown - 1)
    else OpenRecordLeft(g, ok, due, taken, freeClst, front, front')
  }

  lemma {:induction false} RecordLeftAfterIs(g: Geometry, ok: bool, due: bool, taken: bool,
        freeClst: nat, front: Disk, front': Disk, countdown: nat)
    ensures RecordLeftAfter(g, ok, due, taken, freeClst, front, front', countdown) <==>
            OpenRecordLeft(g, ok, due, taken, freeClst, front, front')
  {
    if countdown > 0 {
      RecordLeftAfterIs(g, ok, due, taken, freeClst, front, front', countdown - 1);
    }
  }

  lemma RecordLeftIs(g: Geometry, ok: bool, due: bool, taken: bool, freeClst: nat, front: Disk, front': Disk)
    ensures RecordLeft(g, ok, due, taken, freeClst, front, front') <==>
            OpenRecordLeft(g, ok, due, taken, freeClst, front, front')
  {
    RecordLeftAfterIs(g, ok, due, taken, freeClst, front, front', |front|);
  }

  lemma RecordSame(g: Geometry, due: bool, freeClst: nat, front: Disk)
    ensures RecordLeft(g, false, due, false, freeClst, front, front)
  {
    RecordLeftIs(g, false, due, false, freeClst, front, front);
  }

  /** The volume has a free-cluster record, and uses it. */
  predicate KeepsInfo(g: Geometry, useInfo: bool) {
    g.fatType == FAT32 && useInfo
  }

  /** On a volume of any type: FR_OK means that the record on the drive, if the volume has one, tells count and hint,
      whatever became of the write, exactly if none was due. None is due where there is no record, or where it tells
      them already. */
  lemma InfoIff(g: Geometry, useInfo: bool, changed: bool, front: Disk, freeClst: nat, lastClst: nat)
    requires (g.fatType == FAT32 ==> g.volbase + 1 < |front|) && freeClst < 0x1_0000_0000
    requires KeepsInfo(g, useInfo) && !changed ==> InfoTells(front[g.volbase + 1], freeClst, lastClst)
    ensures (forall front' :: InfoOutcome(g, InfoDue(g, useInfo, changed), front, FR_OK, front') ==>
               && |front'| == |front|
               && (KeepsInfo(g, useInfo) ==> InfoTells(front'[g.volbase + 1], freeClst, lastClst)))
            <==> !InfoDue(g, useInfo, changed)
  {
    if InfoDue(g, useInfo, changed) {
      var junk: Sector := front[g.volbase + 1][510 := 0];
      var front' := front[g.volbase + 1 := junk];
      assert !IsInfo(junk);
      assert InfoOutcome(g, true, front, FR_OK, front');
    }
  }

  /** sync_fs: the window and, on FAT32, the free-cluster record written out. The result of writing the record is not
      looked at; whether the drive's own cache could be flushed is. `taken` says whether the drive took the record. */
  method SyncFs(fs: Volume) returns (res: FResult, ghost taken: bool)
    requires fs.Valid()
    modifies fs
    ensures fs.Valid() && fs.Image() == old(fs.Image()).(front := fs.Image().front)
    ensures InfoOutcome(fs.g, InfoDue(fs.g, fs.useInfo, old(fs.fsiDirty)), old(fs.Image()).front, res, fs.Image().front)
    ensures res == FR_OK && taken && InfoDue(fs.g, fs.useInfo, old(fs.fsiDirty)) ==>
              && fs.g.volbase + 1 < |fs.Image().front|
              && fs.Image().front[fs.g.volbase + 1] == FsInfo(ZERO_SECTOR, fs.freeClst, fs.lastClst)
    ensures fs.winsect == old(fs.winsect) || fs.winsect == fs.g.volbase + 1 < fs.g.fatbase
    ensures fs.freeClst == old(fs.freeClst) && fs.lastClst == old(fs.lastClst)
    ensures if res == FR_OK then fs.fsiDirty == (old(fs.fsiDirty) && !InfoDue(fs.g, fs.useInfo, old(fs.fsiDirty)))
            else fs.fsiDirty ==> old(fs.fsiDirty)
    ensures res == FR_OK ==> !fs.wflag && fs.Image() == ViewOf(fs.g, fs.disk)
    ensures res != FR_OK ==> res == FR_DISK_ERR
  {
    ViewSizes(fs.g, fs.Logical());
    taken := false;
    res := fs.SyncWindow();
    if res == FR_OK {
      if fs.g.fatType == FAT32 && fs.useInfo && fs.fsiDirty {
        taken := WriteFsInfo(fs);
      }
      var ok, junk := fs.Driver();
      if !ok { res := FR_DISK_ERR; }
    }
  }

  method WriteFsInfo(fs: Volume) returns (ghost taken: bool)
    requires fs.Valid() && !fs.wflag && fs.g.fatType == FAT32
    modifies fs`win, fs`winsect, fs`disk, fs`fsiDirty
    ensures fs.Valid() && fs.Image() == old(fs.Image()).(front := fs.Image().front)
    ensures var front := old(fs.Image()).front;
            && fs.g.volbase + 1 < |front| == |fs.Image().front|
            && fs.Image().front == front[fs.g.volbase + 1 := fs.Image().front[fs.g.volbase + 1]]
            && (taken ==> fs.Image().front[fs.g.volbase + 1] == FsInfo(ZERO_SECTOR, fs.freeClst, fs.lastClst))
    ensures fs.winsect == fs.g.volbase + 1 < fs.g.fatbase && !fs.fsiDirty
  {
    ghost var d := fs.disk;
    fs.ValidIs();
    fs.win := FsInfo(ZERO_SECTOR, fs.freeClst, fs.lastClst);
    fs.winsect := fs.g.volbase + 1;
    var ok := fs.DiskWrite(fs.win, fs.winsect);
    taken := ok;
    fs.fsiDirty := false;
    fs.ValidIs();
    ViewFront(fs.g, d, fs.winsect, fs.disk[fs.winsect]);
  }
}
