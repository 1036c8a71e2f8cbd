/** The boot record of a volume and the partition table: what f_mkfs writes and what mounting reads. */
module FatBoot {
  import opened FatBytes
  import opened FatTable
  import opened FatPlan

  const BS_JMP_BOOT := 0
  const BPB_BYTS_PER_SEC := 11
  const BPB_SEC_PER_CLUS := 13
  const BPB_RSVD_SEC_CNT := 14
  const BPB_NUM_FATS := 16
  const BPB_ROOT_ENT_CNT := 17
  const BPB_TOT_SEC16 := 19
  const BPB_MEDIA := 21
  const BPB_FAT_SZ16 := 22
  const BPB_SEC_PER_TRK := 24
  const BPB_NUM_HEADS := 26
  const BPB_HIDD_SEC := 28
  const BPB_TOT_SEC32 := 32
  const BS_DRV_NUM := 36
  const BS_BOOT_SIG := 38
  const BS_VOL_ID := 39
  const BS_VOL_LAB := 43
  const BPB_FAT_SZ32 := 36
  const BPB_FS_VER32 := 42
  const BPB_ROOT_CLUS32 := 44
  const BPB_FS_INFO32 := 48
  const BPB_BK_BOOT_SEC32 := 50
  const BS_DRV_NUM32 := 64
  const BS_BOOT_SIG32 := 66
  const BS_VOL_ID32 := 67
  const BS_VOL_LAB32 := 71
  const BS_FIL_SYS_TYPE32 := 82
  const BS_55AA := 510
  const SIGNATURE := 0xAA55

  const JUMP_AND_OEM: seq<byte> := [0xEB, 0xFE, 0x90, 0x4D, 0x53, 0x44, 0x4F, 0x53, 0x35, 0x2E, 0x30]
  const NO_NAME: seq<byte> := [0x4E, 0x4F, 0x20, 0x4E, 0x41, 0x4D, 0x45, 0x20, 0x20, 0x20, 0x20]
  const FAT32_NAME: seq<byte> := [0x46, 0x41, 0x54, 0x33, 0x32, 0x20, 0x20, 0x20]
  const FAT_NAME: seq<byte> := [0x46, 0x41, 0x54, 0x20, 0x20, 0x20, 0x20, 0x20]

  /** A sector with some bytes copied into it. */
  function Copied(s: Sector, o: nat, d: seq<byte>): (r: Sector)
    requires o + |d| <= 512
    ensures r[o..o + |d|] == d
    ensures forall j :: 0 <= j < 512 && !(o <= j < o + |d|) ==> r[j] == s[j]
  {
    s[..o] + d + s[o + |d|..]
  }

  /** The fields that every volume has. */
  datatype Bpb = Bpb(
    jump: nat, bytsPerSec: nat, secPerClus: nat, rsvd: nat, numFats: nat, rootEnt: nat,
    tot16: nat, fatSz16: nat, tot32: nat)

  function BpbOf(s: Sector): Bpb {
    Bpb(s[BS_JMP_BOOT], LdWord(s, BPB_BYTS_PER_SEC), s[BPB_SEC_PER_CLUS], LdWord(s, BPB_RSVD_SEC_CNT), s[BPB_NUM_FATS],
        LdWord(s, BPB_ROOT_ENT_CNT), LdWord(s, BPB_TOT_SEC16), LdWord(s, BPB_FAT_SZ16), LdDword(s, BPB_TOT_SEC32))
  }

  /** The fields of a FAT32 volume. */
  datatype Ext = Ext(fatSz32: nat, fsVer: nat, rootClus: nat, fsInfo: nat, named: bool)

  function ExtOf(s: Sector): Ext {
    Ext(LdDword(s, BPB_FAT_SZ32), LdWord(s, BPB_FS_VER32), LdDword(s, BPB_ROOT_CLUS32), LdWord(s, BPB_FS_INFO32),
        s[BS_FIL_SYS_TYPE32..BS_FIL_SYS_TYPE32 + 8] == FAT32_NAME)
  }

  /** What is written behind the common fields leaves them. */
  lemma BpbKept(s: Sector, r: Sector)
    requires forall j :: 0 <= j < 36 ==> r[j] == s[j]
    ensures BpbOf(r) == BpbOf(s)
  {
  }

  lemma ExtKept(s: Sector, r: Sector)
    requires forall j :: 36 <= j < 90 && !(64 <= j < 82) ==> r[j] == s[j]
    ensures ExtOf(r) == ExtOf(s)
  {
    assert r[82..90] == s[82..90];
  }

  // One field written at a time.

  lemma PutJump(s: Sector)
    ensures BpbOf(Copied(s, BS_JMP_BOOT, JUMP_AND_OEM)) == BpbOf(s).(jump := 0xEB)
  {
    var r := Copied(s, BS_JMP_BOOT, JUMP_AND_OEM);
    assert r[0..11][0] == 0xEB;
  }

  lemma PutBytsPerSec(s: Sector, v: nat)
    ensures BpbOf(StWord(s, BPB_BYTS_PER_SEC, v)) == BpbOf(s).(bytsPerSec := v % 65536)
  {
  }

  lemma PutRsvd(s: Sector, v: nat)
    ensures BpbOf(StWord(s, BPB_RSVD_SEC_CNT, v)) == BpbOf(s).(rsvd := v % 65536)
  {
  }

  lemma PutRootEnt(s: Sector, v: nat)
    ensures BpbOf(StWord(s, BPB_ROOT_ENT_CNT, v)) == BpbOf(s).(rootEnt := v % 65536)
  {
  }

  lemma PutTot16(s: Sector, v: nat)
    ensures BpbOf(StWord(s, BPB_TOT_SEC16, v)) == BpbOf(s).(tot16 := v % 65536)
  {
  }

  lemma PutFatSz16(s: Sector, v: nat)
    ensures BpbOf(StWord(s, BPB_FAT_SZ16, v)) == BpbOf(s).(fatSz16 := v % 65536)
  {
  }

  lemma PutTot32(s: Sector, v: nat)
    ensures BpbOf(StDword(s, BPB_TOT_SEC32, v)) == BpbOf(s).(tot32 := v % WORD32)
  {
  }

  lemma PutSecPerClus(s: Sector, v: byte)
    ensures BpbOf(s[BPB_SEC_PER_CLUS := v]) == BpbOf(s).(secPerClus := v)
  {
  }

  lemma PutNumFats(s: Sector, v: byte)
    ensures BpbOf(s[BPB_NUM_FATS := v]) == BpbOf(s).(numFats := v)
  {
  }

  lemma PutOther(s: Sector, hidden: nat)
    ensures BpbOf(s[BPB_MEDIA := 0xF8]) == BpbOf(s)
    ensures BpbOf(StWord(s, BPB_SEC_PER_TRK, 63)) == BpbOf(s) && BpbOf(StWord(s, BPB_NUM_HEADS, 255)) == BpbOf(s)
    ensures BpbOf(StDword(s, BPB_HIDD_SEC, hidden)) == BpbOf(s)
  {
  }

  lemma ZeroBpb(z: Sector)
    requires forall j :: 0 <= j < 512 ==> z[j] == 0
    ensures BpbOf(z) == Bpb(0, 0, 0, 0, 0, 0, 0, 0, 0)
  {
  }

  /** The fields that the boot record of a plan has. */
  function PlanBpb(p: Plan, size: nat, o: Options): Bpb {
    Bpb(0xEB, 512, p.pau % 256, p.szRsv % 65536, o.nFat % 256, if p.fatType == FAT32 then 0 else o.nRoot % 65536,
        if size < 0x1_0000 then size else 0, if p.fatType == FAT32 then 0 else p.szFat % 65536,
        if size < 0x1_0000 then 0 else size % WORD32)
  }

  /** The first part of the boot record. */
  method MakeBpb(p: Plan, size: nat, bVol: nat, o: Options) returns (s: Sector)
    ensures BpbOf(s) == PlanBpb(p, size, o).(fatSz16 := 0)
    ensures forall j :: 36 <= j < 512 ==> s[j] == 0
  {
    s := ZERO_SECTOR;
    ZeroBpb(s);
    PutJump(s);
    s := Copied(s, BS_JMP_BOOT, JUMP_AND_OEM);
    PutBytsPerSec(s, 512);
    s := StWord(s, BPB_BYTS_PER_SEC, 512);
    PutSecPerClus(s, p.pau % 256);
    s := s[BPB_SEC_PER_CLUS := p.pau % 256];
    PutRsvd(s, p.szRsv);
    s := StWord(s, BPB_RSVD_SEC_CNT, p.szRsv);
    PutNumFats(s, o.nFat % 256);
    s := s[BPB_NUM_FATS := o.nFat % 256];
    s := MakeBpb2(s, p, size, o);
    PutOther(s, 0);
    s := s[BPB_MEDIA := 0xF8];
    PutOther(s, 0);
    s := StWord(s, BPB_SEC_PER_TRK, 63);
    PutOther(s, 0);
    s := StWord(s, BPB_NUM_HEADS, 255);
    PutOther(s, bVol);
    s := StDword(s, BPB_HIDD_SEC, bVol);
  }

  method MakeBpb2(t: Sector, p: Plan, size: nat, o: Options) returns (s: Sector)
    ensures (BpbOf(s) == BpbOf(t).(
        rootEnt := if p.fatType == FAT32 then 0 else o.nRoot % 65536,
        tot16 := if size < 0x1_0000 then size else BpbOf(t).tot16,
        tot32 := if size < 0x1_0000 then BpbOf(t).tot32 else size % WORD32))
    ensures forall j :: 36 <= j < 512 ==> s[j] == t[j]
  {
    var n := if p.fatType == FAT32 then 0 else o.nRoot;
    PutRootEnt(t, n);
    s := StWord(t, BPB_ROOT_ENT_CNT, n);
    if size < 0x1_0000 {
      PutTot16(s, size);
      s := StWord(s, BPB_TOT_SEC16, size);
    } else {
      PutTot32(s, size);
      s := StDword(s, BPB_TOT_SEC32, size);
    }
  }

  lemma PutFatSz32(s: Sector, v: nat)
    ensures ExtOf(StDword(s, BPB_FAT_SZ32, v)) == ExtOf(s).(fatSz32 := v % WORD32)
  {
    assert StDword(s, BPB_FAT_SZ32, v)[82..90] == s[82..90];
  }

  lemma PutRootClus(s: Sector, v: nat)
    ensures ExtOf(StDword(s, BPB_ROOT_CLUS32, v)) == ExtOf(s).(rootClus := v % WORD32)
  {
    assert StDword(s, BPB_ROOT_CLUS32, v)[82..90] == s[82..90];
  }

  lemma PutFsInfo(s: Sector, v: nat)
    ensures ExtOf(StWord(s, BPB_FS_INFO32, v)) == ExtOf(s).(fsInfo := v % 65536)
  {
    assert StWord(s, BPB_FS_INFO32, v)[82..90] == s[82..90];
  }

  lemma PutBackup(s: Sector)
    ensures ExtOf(StWord(s, BPB_BK_BOOT_SEC32, 6)) == ExtOf(s)
  {
    assert StWord(s, BPB_BK_BOOT_SEC32, 6)[82..90] == s[82..90];
  }

  lemma PutName32(s: Sector)
    ensures ExtOf(Copied(s, BS_VOL_LAB32, NO_NAME + FAT32_NAME)) == ExtOf(s).(named := true)
  {
    var r := Copied(s, BS_VOL_LAB32, NO_NAME + FAT32_NAME);
    assert r[82..90] == r[71..90][11..];
  }

  /** The rest of the boot record of a FAT32 volume. */
  method MakeExt32(t: Sector, szFat: nat, vsn: nat) returns (s: Sector)
    requires forall j :: 36 <= j < 512 ==> t[j] == 0
    ensures BpbOf(s) == BpbOf(t)
    ensures ExtOf(s) == Ext(szFat % WORD32, 0, 2, 1, true)
  {
    s := StDword(t, BS_VOL_ID32, vsn);
    BpbKept(t, s);
    ExtKept(t, s);
    s := MakeExt32Fields(s, szFat);
    ghost var u := s;
    s := s[BS_DRV_NUM32 := 0x80][BS_BOOT_SIG32 := 0x29];
    BpbKept(u, s);
    ExtKept(u, s);
    u := s;
    s := Copied(s, BS_VOL_LAB32, NO_NAME + FAT32_NAME);
    BpbKept(u, s);
    PutName32(u);
  }

  method MakeExt32Fields(t: Sector, szFat: nat) returns (s: Sector)
    ensures BpbOf(s) == BpbOf(t)
    ensures ExtOf(s) == ExtOf(t).(fatSz32 := szFat % WORD32, rootClus := 2, fsInfo := 1)
  {
    PutFatSz32(t, szFat);
    s := StDword(t, BPB_FAT_SZ32, szFat);
    BpbKept(t, s);
    ghost var u := s;
    PutRootClus(s, 2);
    s := StDword(s, BPB_ROOT_CLUS32, 2);
    BpbKept(u, s);
    u := s;
    PutFsInfo(s, 1);
    s := StWord(s, BPB_FS_INFO32, 1);
    BpbKept(u, s);
    u := s;
    PutBackup(s);
    s := StWord(s, BPB_BK_BOOT_SEC32, 6);
    BpbKept(u, s);
  }

  /** The rest of the boot record of a FAT12 or FAT16 volume. */
  method MakeExt(t: Sector, szFat: nat, vsn: nat) returns (s: Sector)
    ensures BpbOf(s) == BpbOf(t).(fatSz16 := szFat % 65536)
  {
    s := StDword(t, BS_VOL_ID, vsn);
    BpbKept(t, s);
    PutFatSz16(s, szFat);
    s := StWord(s, BPB_FAT_SZ16, szFat);
    ghost var u := s;
    s := s[BS_DRV_NUM := 0x80][BS_BOOT_SIG := 0x29];
    BpbKept(u, s);
    u := s;
    s := Copied(s, BS_VOL_LAB, NO_NAME + FAT_NAME);
    BpbKept(u, s);
  }

  /** A boot record holds a plan. */
  predicate Records(s: Sector, p: Plan, size: nat, o: Options) {
    && BpbOf(s) == PlanBpb(p, size, o) && LdWord(s, BS_55AA) == SIGNATURE
    && (p.fatType == FAT32 ==> ExtOf(s) == Ext(p.szFat % WORD32, 0, 2, 1, true))
  }

  /** The boot record of a volume. */
  method MakeVbr(p: Plan, size: nat, bVol: nat, vsn: nat, o: Options) returns (s: Sector)
    ensures Records(s, p, size, o)
  {
    s := MakeBpb(p, size, bVol, o);
    if p.fatType == FAT32 {
      s := MakeExt32(s, p.szFat, vsn);
    } else {
      s := MakeExt(s, p.szFat, vsn);
    }
    ghost var u := s;
    s := StWord(s, BS_55AA, SIGNATURE);
    BpbKept(u, s);
    ExtKept(u, s);
  }

  // What mounting makes of a boot record.

  /** Whether a sector is a boot record: 0 for that of a FAT volume, 2 for another, 3 for none. */
  function CheckFs(s: Sector): nat {
    var sign, b := LdWord(s, BS_55AA), BpbOf(s);
    if (b.jump == 0xEB || b.jump == 0xE9 || b.jump == 0xE8)
       && ((sign == SIGNATURE && ExtOf(s).named) || Presumable(b)) then 0
    else if sign == SIGNATURE then 2 else 3
  }

  /** The fields are those of a FAT12 or FAT16 volume. */
  predicate Presumable(b: Bpb) {
    && b.bytsPerSec == 512 && IsClusterSize(b.secPerClus) && b.rsvd != 0 && 1 <= b.numFats <= 2
    && b.rootEnt != 0 && (b.tot16 >= 128 || b.tot32 >= 0x1_0000) && b.fatSz16 != 0
  }

  datatype Mounting = NoFilesystem | Mounted(g: Geometry)

  function FatSize(b: Bpb, x: Ext): nat {
    if b.fatSz16 != 0 then b.fatSz16 else x.fatSz32
  }

  function TotalSectors(b: Bpb): nat {
    if b.tot16 != 0 then b.tot16 else b.tot32
  }

  /** The sectors before the clusters. */
  function SystemSectors(b: Bpb, x: Ext): nat {
    (b.rsvd + FatArea(b.numFats, FatSize(b, x)) % WORD32 + b.rootEnt / 16) % WORD32
  }

  /** The fields can be those of a FAT volume. */
  predicate Proper(b: Bpb, x: Ext) {
    && b.bytsPerSec == 512 && 1 <= b.numFats <= 2 && IsClusterSize(b.secPerClus) && b.rootEnt % 16 == 0 && b.rsvd != 0
    && SystemSectors(b, x) <= TotalSectors(b)
  }

  function ClusterCount(b: Bpb, x: Ext): nat
    requires Proper(b, x)
  {
    Clusters(TotalSectors(b), SystemSectors(b, x), b.secPerClus)
  }

  /** The volume with a number of clusters. */
  function WithClusters(b: Bpb, x: Ext, nclst: nat, bsect: nat, sectors: nat): Mounting {
    var t := TypeOf(nclst);
    if nclst == 0 || nclst > MAX_FAT32 then NoFilesystem
    else if (t == FAT32 && (x.fsVer != 0 || b.rootEnt != 0)) || (t != FAT32 && b.rootEnt == 0) then NoFilesystem
    else if FatSize(b, x) < (TableBytes(t, nclst + 2) + 511) / 512 then NoFilesystem
    else
      var fatbase := (bsect + b.rsvd) % WORD32;
      Mounted(Geometry(t, b.numFats, b.secPerClus, b.rootEnt, nclst + 2, FatSize(b, x), bsect, fatbase,
                       if t == FAT32 then x.rootClus else (fatbase + FatArea(b.numFats, FatSize(b, x))) % WORD32,
                       (bsect + SystemSectors(b, x)) % WORD32, sectors))
  }

  /** The volume that a boot record describes, on a drive of `sectors` sectors. */
  function ReadVbr(s: Sector, bsect: nat, sectors: nat): Mounting {
    var b, x := BpbOf(s), ExtOf(s);
    if Proper(b, x) then WithClusters(b, x, ClusterCount(b, x), bsect, sectors) else NoFilesystem
  }

  /** The volume that a plan makes. */
  function PlanGeometry(p: Plan, bVol: nat, sectors: nat, o: Options): Geometry {
    var fatbase := bVol + p.szRsv;
    Geometry(p.fatType, o.nFat, p.pau, if p.fatType == FAT32 then 0 else o.nRoot, p.nClst + 2, p.szFat, bVol, fatbase,
             if p.fatType == FAT32 then 2 else fatbase + FatArea(o.nFat, p.szFat),
             fatbase + FatArea(o.nFat, p.szFat) + p.szDir, sectors)
  }

  /** The layout that a plan makes is one that the volume code relies on: the regions follow one another inside the
      drive. */
  lemma PlanIsValid(p: Plan, size: nat, bVol: nat, sectors: nat, o: Options)
    requires ValidOptions(o) && GoodPlan(size, o, p) && bVol + size <= sectors < WORD32
    ensures ValidGeometry(PlanGeometry(p, bVol, sectors, o))
  {
    DataAreaIs(p.pau, p.nClst);
    ClustersFit(size - (p.szRsv + FatArea(o.nFat, p.szFat) + p.szDir), p.pau, p.nClst);
    ClusterSizeBound(p.pau);
  }

  lemma ClustersFit(room: nat, pau: nat, n: nat)
    requires 0 < pau && n == room / pau
    ensures pau * n <= room
  {
  }

  lemma {:induction false} ClusterSizeBound(c: nat)
    requires IsClusterSize(c)
    ensures 1 <= c <= 128
  {
  }

  /** What of a plan has to fit into the fields of a boot record. */
  predicate Recordable(p: Plan, size: nat, o: Options) {
    && 128 <= size < WORD32 && IsClusterSize(p.pau) && p.pau <= 128 && 0 < p.szFat
    && (p.fatType != FAT32 ==> p.szFat < 0x1_0000)
    && 0 < p.szRsv < 0x1_0000 && 1 <= o.nFat <= 2 && 0 < o.nRoot < 0x1_0000 && o.nRoot % 16 == 0
    && p.szDir == (if p.fatType == FAT32 then 0 else o.nRoot / 16)
    && p.szRsv + FatArea(o.nFat, p.szFat) + p.szDir <= size
  }

  lemma PlanRecordable(p: Plan, size: nat, o: Options)
    requires ValidOptions(o) && GoodPlan(size, o, p) && 128 <= size < WORD32
    ensures Recordable(p, size, o)
  {
    ClusterSizeBound(p.pau);
  }

  /** The boot record of a plan is taken for one. */
  lemma RecognisedVbr(s: Sector, p: Plan, size: nat, o: Options)
    requires Recordable(p, size, o) && Records(s, p, size, o)
    ensures CheckFs(s) == 0
  {
    if p.fatType != FAT32 {
      PlanPresumable(p, size, o, BpbOf(s));
    }
  }

  lemma PlanPresumable(p: Plan, size: nat, o: Options, b: Bpb)
    requires Recordable(p, size, o) && p.fatType != FAT32 && b == PlanBpb(p, size, o)
    ensures Presumable(b)
  {
    PlainBpb(p, size, o);
  }

  /** Its fields read back. */
  lemma FieldsBack(p: Plan, size: nat, o: Options, b: Bpb, x: Ext)
    requires Recordable(p, size, o)
    requires b == PlanBpb(p, size, o) && (p.fatType == FAT32 ==> x == Ext(p.szFat % WORD32, 0, 2, 1, true))
    ensures b.rsvd == p.szRsv && b.numFats == o.nFat && b.secPerClus == p.pau && TotalSectors(b) == size
    ensures b.rootEnt == (if p.fatType == FAT32 then 0 else o.nRoot) && FatSize(b, x) == p.szFat
    ensures SystemSectors(b, x) == p.szRsv + FatArea(o.nFat, p.szFat) + p.szDir && Proper(b, x)
  {
    PlainBpb(p, size, o);
    SameMod(p.szFat, WORD32);
    SystemBack(p, size, o, b, x);
  }

  lemma SameMod(x: nat, m: nat)
    requires x < m
    ensures x % m == x
  {
  }

  /** Nothing is lost in the fields. */
  lemma PlainBpb(p: Plan, size: nat, o: Options)
    requires Recordable(p, size, o)
    ensures PlanBpb(p, size, o) == Bpb(0xEB, 512, p.pau, p.szRsv, o.nFat, if p.fatType == FAT32 then 0 else o.nRoot,
                                       if size < 0x1_0000 then size else 0, if p.fatType == FAT32 then 0 else p.szFat,
                                       if size < 0x1_0000 then 0 else size)
  {
    SameMod(p.pau, 256);
    SameMod(p.szRsv, 65536);
    SameMod(o.nFat, 256);
    SameMod(o.nRoot, 65536);
    if p.fatType != FAT32 {
      SameMod(p.szFat, 65536);
    }
    SameMod(size, WORD32);
  }

  lemma SystemBack(p: Plan, size: nat, o: Options, b: Bpb, x: Ext)
    requires && Recordable(p, size, o) && b.rsvd == p.szRsv && b.numFats == o.nFat && b.rootEnt / 16 == p.szDir
             && FatSize(b, x) == p.szFat
    ensures SystemSectors(b, x) == p.szRsv + FatArea(o.nFat, p.szFat) + p.szDir
  {
    SameMod(FatArea(o.nFat, p.szFat), WORD32);
    SameMod(p.szRsv + FatArea(o.nFat, p.szFat) + p.szDir, WORD32);
  }

  /** The volume with the clusters of a plan. */
  lemma ClustersBack(p: Plan, size: nat, bVol: nat, sectors: nat, o: Options, b: Bpb, x: Ext)
    requires Recordable(p, size, o) && Typed(p) && Tabled(p) && 0 < p.nClst && bVol + size <= sectors < WORD32
    requires && b.rsvd == p.szRsv && b.numFats == o.nFat && b.secPerClus == p.pau
             && b.rootEnt == (if p.fatType == FAT32 then 0 else o.nRoot)
    requires FatSize(b, x) == p.szFat && SystemSectors(b, x) == p.szRsv + FatArea(o.nFat, p.szFat) + p.szDir
    requires p.fatType == FAT32 ==> x.fsVer == 0 && x.rootClus == 2
    ensures WithClusters(b, x, p.nClst, bVol, sectors) == Mounted(PlanGeometry(p, bVol, sectors, o))
  {
    assert (TableBytes(p.fatType, p.nClst + 2) + 511) / 512 <= p.szFat;
  }

  /** Reading the boot record of a plan gives the volume of the plan, with the same type and as many clusters. */
  lemma VbrReadsBack(s: Sector, p: Plan, size: nat, bVol: nat, sectors: nat, o: Options)
    requires && ValidOptions(o) && GoodPlan(size, o, p) && Records(s, p, size, o) && 128 <= size
             && bVol + size <= sectors < WORD32
    ensures CheckFs(s) == 0 && ReadVbr(s, bVol, sectors) == Mounted(PlanGeometry(p, bVol, sectors, o))
  {
    PlanRecordable(p, size, o);
    RecognisedVbr(s, p, size, o);
    VbrFields(s, p, size, bVol, sectors, o);
  }

  lemma VbrFields(s: Sector, p: Plan, size: nat, bVol: nat, sectors: nat, o: Options)
    requires && Recordable(p, size, o) && Typed(p) && Tabled(p) && 0 < p.nClst && bVol + size <= sectors < WORD32
             && Records(s, p, size, o)
    requires p.nClst == Clusters(size, p.szRsv + FatArea(o.nFat, p.szFat) + p.szDir, p.pau)
    ensures ReadVbr(s, bVol, sectors) == Mounted(PlanGeometry(p, bVol, sectors, o))
  {
    var b, x := BpbOf(s), ExtOf(s);
    FieldsBack(p, size, o, b, x);
    ClustersBack(p, size, bVol, sectors, o, b, x);
  }
}
