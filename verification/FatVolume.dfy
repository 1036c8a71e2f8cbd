/** The mounted volume: a drive behind a one-sector write-back window, and FAT entry access through it. */
module FatVolume {
  import opened FatBytes
  import opened FatTable

  datatype FResult = FR_OK | FR_DISK_ERR | FR_INT_ERR | FR_NO_FILE | FR_DENIED | FR_INVALID_NAME

  const NO_SECTOR := 0xFFFF_FFFF  // window holds no sector
  const DISK_ERROR := 0xFFFF_FFFF // value of get_fat and create_chain on a disk error

  predicate InFat1(g: Geometry, s: int) {
    g.fatbase <= s < g.fatbase + g.fsize
  }

  predicate InFat2(g: Geometry, s: int) {
    g.nFats == 2 && g.fatbase + g.fsize <= s < g.fatbase + g.fsize + g.fsize
  }

  function RestBase(g: Geometry): nat {
    g.fatbase + FatArea(g.nFats, g.fsize)
  }

  /** The sector that sync_fs fills without looking at the result of the write. */
  predicate IsFsInfo(g: Geometry, s: int) {
    g.fatType == FAT32 && s == g.volbase + 1
  }

  /** Equal everywhere but possibly in the mirror FAT. */
  ghost predicate SameButMirror(g: Geometry, d: Disk, d': Disk) {
    |d| == |d'| && forall s :: 0 <= s < |d| && !InFat2(g, s) ==> d[s] == d'[s]
  }

  /** What the volume code can see of a drive: all but the mirror FAT. The reserved region, the bytes of the first FAT
      and its array of entries, and everything behind the FATs: root directory region and data clusters. */
  datatype View = View(front: Disk, fat: seq<byte>, table: seq<nat>, rest: Disk)

  ghost function OpenView(g: Geometry, d: Disk): View
    requires ValidGeometry(g) && |d| == g.sectors
  {
    var t := Flat(d[g.fatbase..g.fatbase + g.fsize]);
    View(d[..g.fatbase], t, Entries(t, g.fatType, g.nFatent), d[RestBase(g)..])
  }

  /** OpenView, reached through a countdown so that a proof looks into it only where it calls ViewIs. */
  ghost function Countdown(g: Geometry, d: Disk, n: nat): View
    requires ValidGeometry(g) && |d| == g.sectors
  {
    if n == 0 then OpenView(g, d) else Countdown(g, d, n - 1)
  }

  ghost function ViewOf(g: Geometry, d: Disk): View
    requires ValidGeometry(g) && |d| == g.sectors
  {
    Countdown(g, d, |d|)
  }

  lemma {:induction false} CountdownIs(g: Geometry, d: Disk, n: nat)
    requires ValidGeometry(g) && |d| == g.sectors
    ensures Countdown(g, d, n) == OpenView(g, d)
  {
    if n > 0 {
      CountdownIs(g, d, n - 1);
    }
  }

  lemma ViewIs(g: Geometry, d: Disk)
    requires ValidGeometry(g) && |d| == g.sectors
    ensures ViewOf(g, d) == OpenView(g, d)
  {
    CountdownIs(g, d, |d|);
  }

  lemma ViewSizes(g: Geometry, d: Disk)
    requires ValidGeometry(g) && |d| == g.sectors
    ensures var v := ViewOf(g, d);
            && |v.fat| == 512 * g.fsize && |v.table| == g.nFatent && |v.front| == g.fatbase
            && |v.rest| == g.sectors - RestBase(g)
    ensures ViewOf(g, d).table == Entries(ViewOf(g, d).fat, g.fatType, g.nFatent)
  {
    ViewIs(g, d);
  }

  lemma SameViews(g: Geometry, d: Disk, d': Disk)
    requires ValidGeometry(g) && |d| == |d'| == g.sectors && SameButMirror(g, d, d')
    ensures ViewOf(g, d) == ViewOf(g, d')
  {
    SameSlice(d, d', 0, g.fatbase);
    SameSlice(d, d', g.fatbase, g.fatbase + g.fsize);
    SameSlice(d, d', RestBase(g), |d|);
    ViewIs(g, d);
    ViewIs(g, d');
  }

  lemma SameSlice(d: Disk, d': Disk, a: nat, b: nat)
    requires a <= b <= |d| == |d'|
    requires forall s :: a <= s < b ==> d[s] == d'[s]
    ensures d[a..b] == d'[a..b]
    ensures a == 0 ==> d[..b] == d'[..b]
    ensures b == |d| ==> d[a..] == d'[a..]
  {
  }

  /** A view with the bytes of the FAT replaced. */
  ghost function WithFat(g: Geometry, v: View, t: seq<byte>): View
    requires TableBytes(g.fatType, g.nFatent) <= |t|
  {
    v.(fat := t, table := Entries(t, g.fatType, g.nFatent))
  }

  lemma ViewSlice(g: Geometry, d: Disk, k: nat)
    requires ValidGeometry(g) && |d| == g.sectors && k < g.fsize
    ensures g.fatbase + k < |d| && IsSlice(ViewOf(g, d).fat, k, d[g.fatbase + k])
  {
    FlatSlice(d[g.fatbase..g.fatbase + g.fsize], k);
    ViewIs(g, d);
  }

  lemma ViewPoke(g: Geometry, d: Disk, k: nat, data: Sector)
    requires ValidGeometry(g) && |d| == g.sectors && k < g.fsize
    ensures g.fatbase + k < |d| && |ViewOf(g, d).fat| == 512 * g.fsize
    ensures ViewOf(g, d[g.fatbase + k := data]) == WithFat(g, ViewOf(g, d), Splice(ViewOf(g, d).fat, k, data))
  {
    var d', fat := d[g.fatbase + k := data], d[g.fatbase..g.fatbase + g.fsize];
    SameSlice(d, d', 0, g.fatbase);
    SameSlice(d, d', RestBase(g), |d|);
    FlatReplace(fat, k, data);
    assert Flat(d'[g.fatbase..g.fatbase + g.fsize]) == Splice(Flat(fat), k, data) by {
      assert d'[g.fatbase..g.fatbase + g.fsize] == fat[k := data];
    }
    ViewIs(g, d);
    ViewIs(g, d');
  }

  /** Every sector of the first FAT equals its mirror, save perhaps `skip`. */
  ghost predicate Mirrored(g: Geometry, d: Disk, skip: int) {
    forall s :: InFat1(g, s) && s != skip && s + g.fsize < |d| ==> d[s] == d[s + g.fsize]
  }

  /** A FAT12 entry that lies across two sectors. */
  predicate Straddles(g: Geometry, c: nat) {
    g.fatType == FAT12 && SectorOf(c + c / 2) != SectorOf(c + c / 2 + 1)
  }

  /** What a put_fat of `val` at `c` leaves of the table's bytes: the entry stored, or on a disk error nothing at all,
      save that an entry across two sectors may have only its first byte stored. */
  ghost predicate BytesPut(g: Geometry, t: seq<byte>, c: nat, val: nat, res: FResult, t': seq<byte>)
  {
    if !(2 <= c < g.nFatent && Fits(|t|, g.fatType, c)) then res == FR_INT_ERR && t' == t
    else
      || (res == FR_OK && t' == PutBytes(t, g.fatType, c, val))
      || (res == FR_DISK_ERR && t' == t)
      || (res == FR_DISK_ERR && Straddles(g, c) && t' == PutFirst(t, c, val))
  }

  lemma Bytes12(g: Geometry, t: seq<byte>, c: nat, val: nat, res: FResult, t': seq<byte>)
    requires g.fatType == FAT12 && 2 <= c < g.nFatent && Fits(|t|, FAT12, c)
    requires if res == FR_OK then t' == PutSecond(PutFirst(t, c, val), c, val)
             else res == FR_DISK_ERR && Straddles(g, c) && t' == PutFirst(t, c, val)
    ensures BytesPut(g, t, c, val, res, t')
  {
  }

  /** The same, on the array of entries. */
  ghost predicate PutOutcome(g: Geometry, f: seq<nat>, c: nat, val: nat, res: FResult, f': seq<nat>)
  {
    if !(2 <= c < |f|) then res == FR_INT_ERR && f' == f
    else
      || (res == FR_OK && f' == f[c := Mask(g.fatType, val)])
      || (res == FR_DISK_ERR && f' == f)
      || (res == FR_DISK_ERR && Straddles(g, c) && f' == f[c := HalfPut(c, f[c], val)])
  }

  lemma BytesPutEntries(g: Geometry, t: seq<byte>, c: nat, val: nat, res: FResult, t': seq<byte>)
    requires ValidGeometry(g) && |t| == |t'| == 512 * g.fsize && BytesPut(g, t, c, val, res, t')
    ensures PutOutcome(g, Entries(t, g.fatType, g.nFatent), c, val, res, Entries(t', g.fatType, g.nFatent))
  {
    if 2 <= c < g.nFatent {
      EntriesAt(t, g.fatType, g.nFatent, c);
      PutEntries(t, g.fatType, g.nFatent, c, val);
      if g.fatType == FAT12 {
        HalfPutEntries(t, g.nFatent, c, val);
      }
    }
  }

  /** The reserved bits of a FAT32 table are as they were. */
  ghost predicate ReservedKept(g: Geometry, t: seq<byte>, t': seq<byte>) {
    g.fatType == FAT32 ==>
      |t'| == |t| && forall e: nat :: e < g.nFatent && Fits(|t|, FAT32, e) ==> SpareBits(t', e) == SpareBits(t, e)
  }

  lemma BytesPutReserved(g: Geometry, t: seq<byte>, c: nat, val: nat, res: FResult, t': seq<byte>)
    requires BytesPut(g, t, c, val, res, t')
    ensures ReservedKept(g, t, t')
  {
    if g.fatType == FAT32 && t' != t {
      forall e: nat | e < g.nFatent && Fits(|t|, FAT32, e) ensures SpareBits(t', e) == SpareBits(t, e) {
        ReservedBits(t, c, val, e);
      }
    }
  }

  /** The source's unsigned test for "in the first FAT". */
  lemma InFat1Test(g: Geometry, s: nat)
    requires s < 0x1_0000_0000 && g.fatbase + g.fsize < 0x1_0000_0000
    ensures Sub32(s, g.fatbase) < g.fsize <==> InFat1(g, s)
  {
  }

  /** What sync_window leaves of drive `d`: nothing is to be done, the window is written or spoiled where it belongs,
      and once it is written its mirror is written or spoiled. */
  ghost predicate WindowWritten(g: Geometry, d: Disk, win: Sector, winsect: nat, dirty: bool, res: FResult, d': Disk) {
    if !dirty then res == FR_OK && d' == d
    else
      && |d'| == |d| && winsect < |d|
      && if res != FR_OK then res == FR_DISK_ERR && d' == d[winsect := d'[winsect]]
         else if g.nFats == 2 && InFat1(g, winsect) && winsect + g.fsize < |d| then
           d' == d[winsect := win][winsect + g.fsize := d'[winsect + g.fsize]]
         else d' == d[winsect := win]
  }

  /** The result of writing the mirror is not looked at: FR_OK means that the second FAT mirrors the first, whatever
      became of the transfers, exactly if there is one FAT only or no dirty sector of the first FAT in the window. */
  lemma MirrorIff(g: Geometry, d: Disk, win: Sector, winsect: nat, dirty: bool)
    requires ValidGeometry(g) && |d| == g.sectors && !InFat2(g, winsect) && (dirty ==> winsect < |d|)
    requires g.nFats == 2 ==> Mirrored(g, d, if dirty then winsect else -1)
    ensures (forall d' :: WindowWritten(g, d, win, winsect, dirty, FR_OK, d') && g.nFats == 2 ==> Mirrored(g, d', -1))
            <==> g.nFats == 1 || !dirty || !InFat1(g, winsect)
  {
    if g.nFats == 2 && dirty && InFat1(g, winsect) {
      var junk := Unlike(win);
      var m := winsect + g.fsize;
      assert m < |d|;
      var d' := d[winsect := win][m := junk];
      assert WindowWritten(g, d, win, winsect, dirty, FR_OK, d');
      assert d'[winsect] == win && d'[m] == junk;
      assert !Mirrored(g, d', -1);
    } else if g.nFats == 2 {
      forall d' | WindowWritten(g, d, win, winsect, dirty, FR_OK, d') ensures Mirrored(g, d', -1) {
      }
    }
  }

  class Volume {
    const g: VolumeGeometry
    const useInfo: bool  // the boot record says that there is a free-cluster record
    var disk: Disk
    var win: Sector
    var winsect: nat
    var wflag: bool
    var lastClst: nat
    var freeClst: nat
    var fsiDirty: bool
    ghost var mirrorLost: bool  // some write to the mirror FAT has failed; its result is not looked at

    /** A volume as mounting leaves it: with a clean window. */
    constructor (g: VolumeGeometry, disk: Disk, win: Sector, winsect: nat, lastClst: nat, freeClst: nat, useInfo: bool,
        ghost lost: bool)
      requires |disk| == g.sectors && (g.nFats == 2 && !lost ==> Mirrored(g, disk, -1))
      requires winsect == NO_SECTOR || (winsect < |disk| && !InFat2(g, winsect) && win == disk[winsect])
      ensures && Valid() && this.g == g && this.lastClst == lastClst && this.freeClst == freeClst
              && Image() == ViewOf(g, disk)
      ensures this.disk == disk && this.winsect == winsect && this.useInfo == useInfo && !wflag && !fsiDirty
    {
      this.g, this.disk, this.win, this.winsect := g, disk, win, winsect;
      this.lastClst, this.freeClst, this.useInfo := lastClst, freeClst, useInfo;
      wflag, fsiDirty, mirrorLost := false, false, lost;
      new;
      ValidIs();
    }

    /** IsValid, with a countdown that only keeps proofs from looking inside where ValidIs is not called. */
    ghost predicate Valid()
      reads this`disk, this`win, this`winsect, this`wflag, this`mirrorLost
    {
      ValidAfter(|disk|)
    }

    ghost predicate ValidAfter(countdown: nat)
      reads this`disk, this`win, this`winsect, this`wflag, this`mirrorLost
    {
      if countdown > 0 then ValidAfter(countdown - 1) else IsValid()
    }

    ghost predicate IsValid()
      reads this`disk, this`win, this`winsect, this`wflag, this`mirrorLost
    {
      && |disk| == g.sectors
      && WindowOk()
      && (g.nFats == 2 && !mirrorLost ==> Mirrored(g, disk, if wflag then winsect else -1))
    }

    lemma {:induction false} ValidAfterIs(countdown: nat)
      ensures ValidAfter(countdown) <==> IsValid()
    {
      if countdown > 0 {
        ValidAfterIs(countdown - 1);
      }
    }

    lemma ValidIs()
      ensures Valid() <==> IsValid()
    {
      ValidAfterIs(|disk|);
    }

    /** The window is empty, or holds a sector and is either dirty or equal to the drive (FSInfo aside). */
    ghost predicate WindowOk()
      reads this`disk, this`win, this`winsect, this`wflag, this`mirrorLost
    {
      if winsect == NO_SECTOR then !wflag
      else winsect < |disk| && !InFat2(g, winsect) && (wflag || IsFsInfo(g, winsect) || win == disk[winsect])
    }

    /** The drive as the volume code sees it: overlaid with a dirty window. */
    ghost function Logical(): (d: Disk)
      requires Valid()
      reads this`disk, this`win, this`winsect, this`wflag, this`mirrorLost
      ensures |d| == g.sectors
    {
      ValidIs();
      if wflag then disk[winsect := win] else disk
    }

    ghost function Image(): (v: View)
      requires Valid()
      reads this`disk, this`win, this`winsect, this`wflag, this`mirrorLost
      ensures |v.fat| == 512 * g.fsize && |v.table| == g.nFatent
    {
      ViewSizes(g, Logical());
      ViewOf(g, Logical())
    }

    /** The first FAT as its array of entries. */
    ghost function Fat(): (f: seq<nat>)
      requires Valid()
      reads this`disk, this`win, this`winsect, this`wflag, this`mirrorLost
      ensures |f| == g.nFatent
    {
      Image().table
    }

    lemma FatIs()
      requires Valid()
      ensures Fat() == Entries(Image().fat, g.fatType, g.nFatent)
    {
      ViewSizes(g, Logical());
    }

    lemma FatAt(c: nat)
      requires Valid() && c < g.nFatent
      ensures Fits(512 * g.fsize, g.fatType, c) && Fat()[c] == Entry(Image().fat, g.fatType, c)
    {
      FatIs();
      EntriesAt(Image().fat, g.fatType, g.nFatent, c);
    }

    /** Whether the next transfer succeeds and what a failed one leaves behind: nothing is promised. */
    method Driver() returns (ok: bool, junk: Sector)
    {
      ok, junk := *, ZERO_SECTOR;
    }

    /** A transfer to the drive. It may fail, and then leaves anything in the sector it aimed at. */
    method DiskWrite(data: Sector, sect: nat) returns (ok: bool)
      requires sect < |disk|
      modifies this`disk
      ensures |disk| == |old(disk)|
      ensures disk == old(disk)[sect := disk[sect]]
      ensures ok ==> disk[sect] == data
    {
      var junk;
      ok, junk := Driver();
      disk := disk[sect := if ok then data else junk];
    }

    method DiskRead(sect: nat) returns (ok: bool, data: Sector)
      requires sect < |disk|
      ensures ok ==> data == disk[sect]
    {
      var junk;
      ok, junk := Driver();
      data := if ok then disk[sect] else junk;
    }

    /** The window has just been written to the drive: clears the dirty flag and, for a sector of the first FAT,
        reflects it into the second. The result of that write is not looked at. */
    method Reflect()
      requires |disk| == g.sectors
      requires winsect < |disk| && !InFat2(g, winsect) && win == disk[winsect]
      requires g.nFats == 2 && !mirrorLost ==> Mirrored(g, disk, winsect)
      modifies this`disk, this`wflag, this`mirrorLost
      ensures Valid() && !wflag && SameButMirror(g, old(disk), disk)
      ensures if InFat1(g, winsect) && g.nFats == 2 && winsect + g.fsize < |old(disk)| then
                |disk| == |old(disk)| && disk == old(disk)[winsect + g.fsize := disk[winsect + g.fsize]]
              else disk == old(disk)
    {
      wflag := false;
      InFat1Test(g, winsect);
      if Sub32(winsect, g.fatbase) < g.fsize {
        if g.nFats == 2 {
          var ok := DiskWrite(win, winsect + g.fsize);
          mirrorLost := mirrorLost || !ok;
        }
      }
      ValidIs();
    }

    /** Writes a dirty window back, and to the mirror FAT as well when it is a FAT sector. */
    method SyncWindow() returns (res: FResult)
      requires Valid()
      modifies this`disk, this`wflag, this`mirrorLost
      ensures Valid() && Image() == old(Image())
      ensures res == FR_OK ==> !wflag
      ensures res != FR_OK ==> res == FR_DISK_ERR && old(wflag) && wflag
      ensures WindowWritten(g, old(disk), win, winsect, old(wflag), res, disk)
    {
      res := FR_OK;
      ValidIs();
      if wflag {
        var ok := DiskWrite(win, winsect);
        if ok {
          assert disk == old(Logical());
          Reflect();
          SameViews(g, old(Logical()), disk);
        } else {
          res := FR_DISK_ERR;
          ValidIs();
          assert Logical() == old(Logical());
        }
      }
    }

    /** Brings `sect` into the window, writing the old contents back first. */
    method MoveWindow(sect: nat) returns (res: FResult)
      requires Valid()
      requires sect < g.sectors && !IsFsInfo(g, sect) && !InFat2(g, sect)
      modifies this`disk, this`wflag, this`mirrorLost, this`win, this`winsect
      ensures Valid()
      ensures Image() == old(Image())
      ensures res == FR_OK ==> winsect == sect && win == Logical()[sect]
      ensures res == FR_OK && sect != old(winsect) ==> !wflag
      ensures sect == old(winsect) ==> res == FR_OK && disk == old(disk)
      ensures res != FR_OK ==> res == FR_DISK_ERR && (winsect == old(winsect) || winsect == NO_SECTOR)
    {
      res := FR_OK;
      ValidIs();
      if sect != winsect {
        res := SyncWindow();
        if res == FR_OK {
          ValidIs();
          var ok, data := DiskRead(sect);
          win := data;
          winsect := sect;
          if !ok {
            winsect := NO_SECTOR;
            res := FR_DISK_ERR;
          }
          ValidIs();
        }
      }
    }

    /** What looking into the FAT through the window leaves as it was, and where the window may then be. */
    twostate predicate Peeked()
      requires old(Valid())
      reads this`disk, this`win, this`winsect, this`wflag, this`mirrorLost
    {
      Valid() && Image() == old(Image()) && (winsect == old(winsect) || winsect == NO_SECTOR || InFat1(g, winsect))
    }

    /** Only the FAT has changed of what the volume code sees, and the window is where it was, empty or on the FAT. */
    twostate predicate FatOnly()
      requires old(Valid()) && Valid()
      reads this`disk, this`win, this`winsect, this`wflag, this`mirrorLost
    {
      && Image() == old(Image()).(fat := Image().fat, table := Image().table)
      && (winsect == old(winsect) || winsect == NO_SECTOR || InFat1(g, winsect))
    }

    /** Brings sector `k` of the first FAT into the window. */
    method MoveToFat(k: nat) returns (res: FResult)
      requires Valid() && k < g.fsize
      modifies this`disk, this`wflag, this`mirrorLost, this`win, this`winsect
      ensures Peeked()
      ensures res == FR_OK ==> winsect == g.fatbase + k && IsSlice(Image().fat, k, win)
      ensures res != FR_OK ==> res == FR_DISK_ERR
      ensures g.fatbase + k == old(winsect) ==> res == FR_OK
    {
      res := MoveWindow(g.fatbase + k);
      ViewSlice(g, Logical(), k);
    }

    /** Changes the FAT sector in the window and marks the window dirty. */
    method PokeFat(k: nat, data: Sector)
      requires Valid() && k < g.fsize && winsect == g.fatbase + k
      modifies this`wflag, this`win
      ensures Valid() && wflag
      ensures Image() == WithFat(g, old(Image()), Splice(old(Image()).fat, k, data))
    {
      ViewPoke(g, Logical(), k, data);
      ValidIs();
      win := data;
      wflag := true;
      ValidIs();
      assert Logical() == old(Logical())[winsect := data];
    }

    /** The effect of put_fat on what the volume code sees: the bytes of one entry stored. */
    twostate predicate Stored(clst: nat, val: nat, res: FResult)
      requires old(Valid())
      reads this`disk, this`win, this`winsect, this`wflag, this`mirrorLost
    {
      && Valid() && FatOnly()
      && BytesPut(g, old(Image()).fat, clst, val, res, Image().fat)
    }

    /** Stores one byte of the FAT through the window. */
    method PokeFatByte(i: nat, b: byte)
      requires Valid() && i < 512 * g.fsize && winsect == g.fatbase + SectorOf(i)
      requires IsSlice(Image().fat, SectorOf(i), win)
      modifies this`wflag, this`win
      ensures Valid() && wflag
      ensures Image() == WithFat(g, old(Image()), old(Image()).fat[i := b])
    {
      IndexByte(i);
      SpliceByte(Image().fat, SectorOf(i), win, i % 512, b);
      PokeFat(SectorOf(i), win[i % 512 := b]);
    }

    method ReadFatByte(i: nat) returns (ok: bool, b: byte)
      requires Valid() && i < 512 * g.fsize
      modifies this`disk, this`wflag, this`mirrorLost, this`win, this`winsect
      ensures Peeked()
      ensures ok ==> InFat1(g, winsect) && b == Image().fat[i]
    {
      IndexByte(i);
      var res := MoveToFat(i / 512);
      ok := res == FR_OK;
      b := win[i % 512];
      if ok {
        SliceByte(Image().fat, SectorOf(i), win, i % 512);
      }
    }

    method GetFat12(clst: nat) returns (val: nat)
      requires Valid() && g.fatType == FAT12 && 2 <= clst < g.nFatent
      modifies this`disk, this`wflag, this`mirrorLost, this`win, this`winsect
      ensures Peeked()
      ensures val == DISK_ERROR || (val == Fat()[clst] && InFat1(g, winsect))
    {
      var bc := clst + clst / 2;
      FatAt(clst);
      val := DISK_ERROR;
      var ok, b0 := ReadFatByte(bc);
      if ok {
        var b1;
        ok, b1 := ReadFatByte(bc + 1);
        if ok {
          val := Pack12(clst, b0, b1);
        }
      }
    }

    method GetFat16(clst: nat) returns (val: nat)
      requires Valid() && g.fatType == FAT16 && 2 <= clst < g.nFatent
      modifies this`disk, this`wflag, this`mirrorLost, this`win, this`winsect
      ensures Peeked()
      ensures val == DISK_ERROR || (val == Fat()[clst] && InFat1(g, winsect))
    {
      val := DISK_ERROR;
      InTable16(g.nFatent, clst, g.fsize);
      var res := MoveToFat(clst / 256);
      if res == FR_OK {
        FatAt(clst);
        Window16(Image().fat, g.nFatent, clst, win, 0);
        val := LdWord(win, clst * 2 % 512);
      }
    }

    method GetFat32(clst: nat) returns (val: nat)
      requires Valid() && g.fatType == FAT32 && 2 <= clst < g.nFatent
      modifies this`disk, this`wflag, this`mirrorLost, this`win, this`winsect
      ensures Peeked()
      ensures val == DISK_ERROR || (val == Fat()[clst] && InFat1(g, winsect))
    {
      val := DISK_ERROR;
      InTable32(g.nFatent, clst, g.fsize);
      var res := MoveToFat(clst / 128);
      if res == FR_OK {
        FatAt(clst);
        Window32(Image().fat, g.nFatent, clst, win, 0);
        val := LdDword(win, clst * 4 % 512) % 0x1000_0000;
      }
    }

    /** The value of a FAT entry, 1 for a cluster number out of range, all ones on a disk error. */
    method GetFat(clst: nat) returns (val: nat)
      requires Valid()
      modifies this`disk, this`wflag, this`mirrorLost, this`win, this`winsect
      ensures Peeked()
      ensures !(2 <= clst < g.nFatent) ==> val == 1 && winsect == old(winsect)
      ensures 2 <= clst < g.nFatent ==> val == DISK_ERROR || (val == Fat()[clst] && InFat1(g, winsect))
    {
      if clst < 2 || clst >= g.nFatent {
        val := 1;
      } else {
        match g.fatType
        case FAT12 => val := GetFat12(clst);
        case FAT16 => val := GetFat16(clst);
        case FAT32 => val := GetFat32(clst);
      }
    }

    /** Brings byte `i` of the FAT into the window and edits it. */
    method EditFatByte(i: nat, edit: byte -> byte) returns (res: FResult)
      requires Valid() && i < 512 * g.fsize
      modifies this`disk, this`wflag, this`mirrorLost, this`win, this`winsect
      ensures Valid() && Image() == old(Image()).(fat := Image().fat, table := Image().table)
      ensures res == FR_OK ==> winsect == g.fatbase + SectorOf(i)
      ensures res == FR_OK ==> Image().fat == old(Image()).fat[i := edit(old(Image()).fat[i])]
      ensures res != FR_OK ==> res == FR_DISK_ERR && Image() == old(Image()) && old(winsect) != g.fatbase + SectorOf(i)
      ensures winsect == old(winsect) || winsect == NO_SECTOR || InFat1(g, winsect)
    {
      IndexByte(i);
      res := MoveToFat(i / 512);
      if res == FR_OK {
        SliceByte(Image().fat, SectorOf(i), win, i % 512);
        PokeFatByte(i, edit(win[i % 512]));
      }
    }

    method PutFat12(clst: nat, val: nat) returns (res: FResult)
      requires Valid() && g.fatType == FAT12 && 2 <= clst < g.nFatent
      modifies this`disk, this`wflag, this`mirrorLost, this`win, this`winsect
      ensures Stored(clst, val, res)
    {
      var bc := clst + clst / 2;
      ghost var t := Image().fat;
      FatAt(clst);
      res := EditFatByte(bc, b => FirstByte12(clst, b, val));
      if res == FR_OK {
        assert Image().fat == PutFirst(t, clst, val);
        res := EditFatByte(bc + 1, b => SecondByte12(clst, b, val));
        Bytes12(g, t, clst, val, res, Image().fat);
      }
    }

    method PutFat16(clst: nat, val: nat) returns (res: FResult)
      requires Valid() && g.fatType == FAT16 && 2 <= clst < g.nFatent
      modifies this`disk, this`wflag, this`mirrorLost, this`win, this`winsect
      ensures Stored(clst, val, res)
    {
      InTable16(g.nFatent, clst, g.fsize);
      res := MoveToFat(clst / 256);
      if res == FR_OK {
        Window16(Image().fat, g.nFatent, clst, win, val);
        PokeFat(clst / 256, StWord(win, clst * 2 % 512, val));
      }
    }

    method PutFat32(clst: nat, val: nat) returns (res: FResult)
      requires Valid() && g.fatType == FAT32 && 2 <= clst < g.nFatent
      modifies this`disk, this`wflag, this`mirrorLost, this`win, this`winsect
      ensures Stored(clst, val, res)
    {
      InTable32(g.nFatent, clst, g.fsize);
      res := MoveToFat(clst / 128);
      if res == FR_OK {
        Window32(Image().fat, g.nFatent, clst, win, val);
        PokeFat(clst / 128, StDword(win, clst * 4 % 512, Merge32(LdDword(win, clst * 4 % 512), val)));
      }
    }

    /** The bytes put_fat stores, for each table type. */
    method StoreEntry(clst: nat, val: nat) returns (res: FResult)
      requires Valid()
      modifies this`disk, this`wflag, this`mirrorLost, this`win, this`winsect
      ensures Stored(clst, val, res)
    {
      res := FR_INT_ERR;
      if clst >= 2 && clst < g.nFatent {
        match g.fatType
        case FAT12 => res := PutFat12(clst, val);
        case FAT16 => res := PutFat16(clst, val);
        case FAT32 => res := PutFat32(clst, val);
      }
    }

    /** Changes one FAT entry. */
    method PutFat(clst: nat, val: nat) returns (res: FResult)
      requires Valid()
      modifies this`disk, this`wflag, this`mirrorLost, this`win, this`winsect
      ensures Valid() && FatOnly()
      ensures PutOutcome(g, old(Fat()), clst, val, res, Fat()) && ReservedKept(g, old(Image()).fat, Image().fat)
    {
      FatIs();
      res := StoreEntry(clst, val);
      FatIs();
      BytesPutReserved(g, old(Image()).fat, clst, val, res, Image().fat);
      BytesPutEntries(g, old(Image()).fat, clst, val, res, Image().fat);
    }
  }
}
