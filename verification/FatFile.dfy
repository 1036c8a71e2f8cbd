/** Open files: f_read, f_write, f_lseek, f_sync and f_truncate. */
module FatFile {
  import opened FatBytes
  import opened FatTable
  import opened FatVolume
  import opened FatChain
  import opened FatAlloc
  import opened FatLayout
  import opened FatCursor
  import opened FatApart
  import opened FatState
  import opened FatSeek
  import opened FatEntry

  // Transfers between a file and the drive, past the window.

  /** disk_write of one data sector. If it fails it leaves anything there. */
  method WriteSector(fs: Volume, data: Sector, sect: nat) returns (ok: bool, ghost stored: Sector)
    requires fs.Valid() && fs.g.database <= sect < fs.g.sectors && fs.winsect != sect
    modifies fs`disk
    ensures fs.Valid()
    ensures Behind(fs.g, sect) < |old(fs.Image()).rest| == fs.g.sectors - RestBase(fs.g)
    ensures fs.Image() == old(fs.Image()).(rest := old(fs.Image()).rest[Behind(fs.g, sect) := stored])
    ensures ok ==> stored == data
  {
    ghost var d := fs.Logical();
    fs.ValidIs();
    ok := fs.DiskWrite(data, sect);
    stored := fs.disk[sect];
    fs.ValidIs();
    assert fs.Logical() == d[sect := stored];
    ViewRest(fs.g, d, sect, stored);
  }

  method ReadSector(fs: Volume, sect: nat) returns (ok: bool, data: Sector)
    requires fs.Valid() && fs.g.database <= sect < fs.g.sectors && fs.winsect != sect
    ensures Behind(fs.g, sect) < |fs.Image().rest| == fs.g.sectors - RestBase(fs.g)
    ensures ok ==> data == fs.Image().rest[Behind(fs.g, sect)]
  {
    fs.ValidIs();
    ok, data := fs.DiskRead(sect);
    ViewRest(fs.g, fs.Logical(), sect, data);
  }

  /** disk_write of `cc` data sectors. If it fails it leaves anything there. */
  method WriteRun(fs: Volume, data: seq<byte>, sect: nat, cc: nat) returns (ok: bool, ghost stored: seq<Sector>)
    requires fs.Valid() && 0 < cc && |data| == 512 * cc && fs.g.database <= sect && sect + cc <= fs.g.sectors
    requires !(sect <= fs.winsect < sect + cc)
    modifies fs`disk
    ensures fs.Valid() && |stored| == cc
    ensures Behind(fs.g, sect) + cc <= |old(fs.Image()).rest| == fs.g.sectors - RestBase(fs.g)
    ensures fs.Image() == old(fs.Image()).(rest := PutRun(old(fs.Image()).rest, Behind(fs.g, sect), stored))
    ensures ok ==> Flat(stored) == data
    decreases cc
  {
    ghost var s1: Sector, more: seq<Sector>;
    ghost var v := fs.Image();
    ok, s1 := WriteSector(fs, data[..512], sect);
    stored := [s1];
    if cc > 1 {
      var ok';
      ok', more := WriteRun(fs, data[512..], sect + 1, cc - 1);
      ok := ok && ok';
      stored := [s1] + more;
      assert stored[1..] == more;
    }
    PutRunFirst(v.rest, Behind(fs.g, sect), stored);
    FlatFirst(stored);
    assert data == data[..512] + data[512..];
  }

  /** disk_read of `cc` data sectors. */
  method ReadRun(fs: Volume, sect: nat, cc: nat) returns (ok: bool, data: seq<byte>)
    requires fs.Valid() && 0 < cc && fs.g.database <= sect && sect + cc <= fs.g.sectors
    requires !(sect <= fs.winsect < sect + cc)
    ensures Behind(fs.g, sect) + cc <= |fs.Image().rest| == fs.g.sectors - RestBase(fs.g) && |data| == 512 * cc
    ensures ok ==> data == Flat(fs.Image().rest[Behind(fs.g, sect)..Behind(fs.g, sect) + cc])
    decreases cc
  {
    var ok1, s1 := ReadSector(fs, sect);
    ok, data := ok1, s1;
    var more: seq<byte> := [];
    if cc > 1 {
      var ok';
      ok', more := ReadRun(fs, sect + 1, cc - 1);
      ok, data := ok && ok', data + more;
    }
    RunBounds(fs.g, sect, cc);
    RunFlat(fs.Image().rest, Behind(fs.g, sect), cc, s1, more);
  }

  lemma RunBounds(g: VolumeGeometry, sect: nat, cc: nat)
    requires 0 < cc && g.database <= sect && sect + cc <= g.sectors
    ensures Behind(g, sect) + cc <= g.sectors - RestBase(g) && Behind(g, sect + 1) == Behind(g, sect) + 1
  {
    DataBehind(g, sect);
  }

  /** A run of sectors as bytes: those of the first, then those of the others. */
  lemma RunFlat(rest: Disk, a: nat, cc: nat, first: Sector, more: seq<byte>)
    requires 0 < cc && a + cc <= |rest|
    ensures first == rest[a] && more == (if cc > 1 then Flat(rest[a + 1..a + cc]) else []) ==>
              Flat(rest[a..a + cc]) == (if cc > 1 then first + more else first)
  {
    var run := rest[a..a + cc];
    assert |run| == cc && run[0] == rest[a];
    assert run[1..] == rest[a + 1..a + cc];
    FlatFirst(run);
  }

  /** Where the directory entry of a file is, no sector of the file is, and no free one; nor is it in the file's
      cache. The countdown only keeps proofs from looking inside where PlacedIs is not called. */
  ghost predicate Placed(g: VolumeGeometry, f: seq<nat>, chain: seq<nat>, sect: nat, s: nat) {
    PlacedAfter(g, f, chain, sect, s, |chain|)
  }

  ghost predicate PlacedAfter(g: VolumeGeometry, f: seq<nat>, chain: seq<nat>, sect: nat, s: nat, countdown: nat) {
    if countdown > 0 then PlacedAfter(g, f, chain, sect, s, countdown - 1)
    else RestBase(g) <= s < g.sectors && !InChain(g, chain, s) && WindowInUse(g, f, s) && sect != s
  }

  lemma {:induction false} PlacedAfterIs(g: VolumeGeometry, f: seq<nat>, chain: seq<nat>, sect: nat, s: nat,
      countdown: nat)
    ensures PlacedAfter(g, f, chain, sect, s, countdown) <==>
            RestBase(g) <= s < g.sectors && !InChain(g, chain, s) && WindowInUse(g, f, s) && sect != s
  {
    if countdown > 0 {
      PlacedAfterIs(g, f, chain, sect, s, countdown - 1);
    }
  }

  lemma PlacedIs(g: VolumeGeometry, f: seq<nat>, chain: seq<nat>, sect: nat, s: nat)
    ensures Placed(g, f, chain, sect, s) <==>
            RestBase(g) <= s < g.sectors && !InChain(g, chain, s) && WindowInUse(g, f, s) && sect != s
  {
    PlacedAfterIs(g, f, chain, sect, s, |chain|);
  }

  class File {
    const fs: Volume
    const canRead: bool
    const canWrite: bool
    const dirSect: nat  // where its directory entry is
    const dirOfs: nat
    var err: FResult
    var modified: bool
    var dirty: bool
    var sclust: nat
    var objsize: nat
    var fptr: nat
    var clust: nat
    var sect: nat
    var buf: Sector
    ghost var chain: seq<nat>

    ghost function Cur(): Cursor
      reads this
    {
      Cursor(sclust, objsize, fptr, clust, sect, buf, dirty, chain)
    }

    /** The volume and the file's own fields fit together. */
    ghost predicate Whole()
      reads this, fs
    {
      fs.Valid() && Intact(fs.g, fs.Image(), fs.winsect, Cur())
    }

    /** The file is in use. */
    ghost predicate Live()
      reads this, fs
    {
      fs.Valid() && err == FR_OK && CountOk(fs) && Core(fs.g, fs.Image(), fs.winsect, Cur())
    }

    ghost predicate Valid()
      reads this, fs
    {
      Whole() && (err == FR_OK ==> Live() && Position(fs.g, Cur()))
    }

    /** The file as a byte array. */
    ghost function Data(): seq<byte>
      requires fs.Valid()
      reads this, fs
    {
      Contents(fs.g, fs.Image(), Cur())
    }

    /** The sector with the file's directory entry is none of the file's own, and not free. */
    ghost predicate EntryPlaced()
      requires fs.Valid()
      reads this, fs
    {
      dirOfs + 32 <= 512 && Placed(fs.g, fs.Fat(), chain, sect, dirSect)
    }

    /** It stays so whatever is done to the file. */
    lemma EntryStays(v: View, x: Cursor, own: seq<nat>)
      requires fs.Valid() && Owned(fs.g, v, fs.Image(), x.chain, own) && chain <= own && Cached(fs.g, own, x.sect, sect)
      ensures dirOfs + 32 <= 512 && Placed(fs.g, v.table, x.chain, x.sect, dirSect) ==> EntryPlaced()
    {
      PlacedIs(fs.g, v.table, x.chain, x.sect, dirSect);
      PlacedIs(fs.g, fs.Fat(), chain, sect, dirSect);
      if Placed(fs.g, v.table, x.chain, x.sect, dirSect) {
        StaysAway(fs.g, v, fs.Image(), x.chain, own, chain, x.sect, sect, dirSect);
      }
    }

    /** The end of f_open: the cursor at the start, nothing cached. */
    constructor (fs: Volume, canRead: bool, canWrite: bool, dirSect: nat, dirOfs: nat, sclust: nat, objsize: nat,
        ghost chain: seq<nat>)
      requires fs.Valid() && |fs.Image().rest| == fs.g.sectors - RestBase(fs.g)
      requires Rooted(fs.g, fs.Fat(), fs.winsect, sclust, chain) && !InChain(fs.g, chain, fs.winsect)
      requires Proper(fs.g, chain) && Covers(fs.g, chain, objsize) && objsize < 0x1_0000_0000
      ensures err == FR_OK && this.fs == fs && fptr == 0 && sect == 0 && !modified && (CountOk(fs) ==> Valid())
      ensures Core(fs.g, fs.Image(), fs.winsect, Cur()) && Position(fs.g, Cur())
      ensures this.canRead == canRead && this.canWrite == canWrite && this.chain == chain
      ensures Data() == Bytes(fs.g, fs.Image().rest, chain, objsize)
    {
      this.fs, this.canRead, this.canWrite, this.dirSect, this.dirOfs := fs, canRead, canWrite, dirSect, dirOfs;
      this.sclust, this.objsize, this.chain := sclust, objsize, chain;
      err, modified, dirty, fptr, clust, sect, buf := FR_OK, false, false, 0, 0, 0, ZERO_SECTOR;
      new;
      CoreIs(fs.g, fs.Image(), fs.winsect, Cur());
      PositionIs(fs.g, Cur());
      IndexByte(0);
    }

    /** The file has changed. */
    method Touch()
      requires Whole() && Live() && Position(fs.g, Cur())
      modifies this`modified
      ensures Valid() && modified && Data() == old(Data()) && Cur() == old(Cur()) && EntryPlaced() == old(EntryPlaced())
    {
      modified := true;
    }

    /** The file is saved. */
    method Untouch()
      requires Valid() && EntryPlaced()
      modifies this`modified
      ensures Valid() && EntryPlaced() && !modified && Data() == old(Data()) && Cur() == old(Cur())
    {
      modified := false;
    }

    /** The file is out of use from now on. */
    method Fail(res: FResult)
      requires Whole() && res != FR_OK
      modifies this`err
      ensures && Valid() && err == res && Data() == old(Data()) && Cur() == old(Cur())
              && EntryPlaced() == old(EntryPlaced())
    {
      err := res;
    }

    /** Writes the dirty sector back. */
    method WriteBack() returns (ok: bool)
      requires Whole()
      modifies fs`disk, this`dirty
      ensures Whole() && Data() == old(Data()) && fs.Fat() == old(fs.Fat())
      ensures Cur() == old(Cur()).(dirty := !ok)
      ensures Kept(fs.g, old(fs.Image()), fs.Image(), chain)
      ensures ok && old(Live()) ==> Live()
    {
      ok := true;
      if dirty {
        ghost var v, stored := fs.Image(), buf;
        IntactFacts(fs.g, v, fs.winsect, Cur());
        ok, stored := WriteSector(fs, buf, sect);
        AfterWriteBack(fs.g, v, fs.winsect, Cur(), ok, stored);
        dirty := !ok;
      } else {
        KeptSame(fs.g, fs.Image(), chain);
      }
    }

    /** An entry of the FAT, on behalf of the file. */
    method Peek(clst: nat) returns (val: nat)
      requires Live() && IsCluster(fs.Fat(), clst)
      modifies fs`disk, fs`wflag, fs`mirrorLost, fs`win, fs`winsect
      ensures Live() && fs.Image() == old(fs.Image()) && WindowMoved(fs.g, old(fs.winsect), fs.winsect)
      ensures val == DISK_ERROR || val == fs.Fat()[clst]
    {
      ghost var w := fs.winsect;
      CoreFacts(fs.g, fs.Image(), w, Cur());
      val := fs.GetFat(clst);
      AfterPeek(fs.g, fs.Image(), w, Cur(), fs.winsect);
    }

    /** On a sector boundary: the current cluster becomes that of the byte at the cursor. */
    method ToCluster() returns (res: FResult)
      requires Live() && Position(fs.g, Cur()) && ByteIn(fptr) == 0 && fptr < objsize
      modifies fs`disk, fs`wflag, fs`mirrorLost, fs`win, fs`winsect, this`clust
      ensures Live() && Data() == old(Data()) && fs.Image() == old(fs.Image())
      ensures WindowMoved(fs.g, old(fs.winsect), fs.winsect)
      ensures Cur() == old(Cur()).(clust := clust)
      ensures res == FR_OK ==> IsNext(fs.g, Cur(), clust)
      ensures res != FR_OK ==> res == FR_DISK_ERR
    {
      res := FR_OK;
      if SectorIn(fs.g.csize, SectorOf(fptr)) == 0 {
        AtBoundary(fs.g, fs.Image(), fs.winsect, Cur());
        InsideFile(fs.g, fs.Image(), fs.winsect, Cur());
        var clst := sclust;
        if fptr != 0 {
          clst := Peek(clust);
        }
        if clst < 2 {
          res := FR_INT_ERR;
        } else if clst == DISK_ERROR {
          res := FR_DISK_ERR;
        } else {
          AfterMove(fs.g, fs.Image(), fs.winsect, Cur(), clst);
          clust := clst;
        }
      } else {
        InsideCluster(fs.g, Cur());
      }
    }

    /** The sector of the byte at the cursor, from the current cluster. */
    method ToSector() returns (s: nat)
      requires Live() && IsNext(fs.g, Cur(), clust)
      ensures s != 0 && Here(fs.g, Cur(), s) && fs.g.database <= s < fs.g.sectors && s != fs.winsect
    {
      SectorFound(fs.g, fs.Image(), fs.winsect, Cur());
      s := Clst2Sect(fs.g, clust);
      if s != 0 {
        s := s + SectorIn(fs.g.csize, SectorOf(fptr));
        HereFacts(fs.g, fs.Image(), fs.winsect, Cur(), s);
      }
    }

    // Reading.

    /** Reads sector `s` into the clean cache. */
    method Refill(s: nat) returns (res: FResult)
      requires Live() && !dirty && fs.g.database <= s < fs.g.sectors && fs.winsect != s
      modifies this`buf, this`sect
      ensures Whole() && Data() == old(Data())
      ensures Cur() == old(Cur()).(buf := buf, sect := sect)
      ensures if res == FR_OK then Live() && sect == s else sect == old(sect)
      ensures res != FR_OK ==> res == FR_DISK_ERR
    {
      var ok, data := ReadSector(fs, s);
      AfterRefill(fs.g, fs.Image(), fs.winsect, Cur(), s, data);
      buf := data;
      if ok {
        sect := s;
        CoreFacts(fs.g, fs.Image(), fs.winsect, Cur());
      }
      res := if ok then FR_OK else FR_DISK_ERR;
    }

    /** Makes sector `s` the cached one, writing back what was cached. */
    method Load(s: nat) returns (res: FResult)
      requires Live() && Here(fs.g, Cur(), s) && fs.g.database <= s < fs.g.sectors && fs.winsect != s
      modifies fs`disk, this`dirty, this`buf, this`sect
      ensures Whole() && Data() == old(Data()) && fs.Fat() == old(fs.Fat())
      ensures Cur() == old(Cur()).(dirty := dirty, buf := buf, sect := sect)
      ensures Kept(fs.g, old(fs.Image()), fs.Image(), chain) && Cached(fs.g, chain, old(sect), sect)
      ensures res == FR_OK ==> Live() && Here(fs.g, Cur(), sect)
      ensures res != FR_OK ==> res == FR_DISK_ERR
    {
      res := FR_OK;
      CoreFacts(fs.g, fs.Image(), fs.winsect, Cur());
      CachedSame(fs.g, chain, sect);
      CachedHere(fs.g, Cur(), s, sect);
      if sect != s {
        ghost var x := Cur();
        var ok := WriteBack();
        if ok {
          res := Refill(s);
          HereCached(fs.g, x, s, Cur());
        } else {
          res := FR_DISK_ERR;
        }
      } else {
        KeptSame(fs.g, fs.Image(), chain);
      }
    }

    /** Copies out of the cached sector what is wanted of it. */
    method TakeCached(btr: nat) returns (data: seq<byte>)
      requires Live() && Here(fs.g, Cur(), sect) && 0 < btr && fptr + btr <= objsize
      modifies this`fptr
      ensures Live() && Position(fs.g, Cur()) && Data() == old(Data()) && 0 < |data| <= btr
      ensures Cur() == old(Cur()).(fptr := old(fptr) + |data|) && data == Part(Data(), old(fptr), fptr)
    {
      var rcnt := 512 - ByteIn(fptr);
      if rcnt > btr { rcnt := btr; }
      CachedRead(fs.g, fs.Image(), fs.winsect, Cur(), rcnt);
      data := buf[ByteIn(fptr)..ByteIn(fptr) + rcnt];
      fptr := fptr + rcnt;
    }

    /** Reads whole sectors at the cursor straight from the drive, and puts the dirty one over them. */
    method FetchDirect(s: nat, cc: nat) returns (ok: bool, data: seq<byte>)
      requires Live() && Here(fs.g, Cur(), s) && ByteIn(fptr) == 0
      requires 0 < cc && SectorIn(fs.g.csize, SectorOf(fptr)) + cc <= fs.g.csize && fptr + 512 * cc <= objsize
      ensures |data| == 512 * cc && (ok ==> data == Part(Data(), fptr, fptr + |data|))
    {
      DirectBounds(fs.g, fs.Image(), fs.winsect, Cur(), s, cc);
      var run;
      ok, run := ReadRun(fs, s, cc);
      data := if dirty then Patched(run, sect, s, cc, buf) else run;
      if ok {
        FetchedIs(fs.g, fs.Image(), fs.winsect, Cur(), s, cc, data);
      }
    }

    /** Reads as many whole sectors as are wanted of the current cluster. */
    method TakeDirect(s: nat, btr: nat) returns (res: FResult, data: seq<byte>)
      requires Live() && Here(fs.g, Cur(), s) && ByteIn(fptr) == 0 && 512 <= btr && fptr + btr <= objsize
      modifies this`fptr
      ensures Live() && Data() == old(Data()) && Cur() == old(Cur()).(fptr := old(fptr) + |data|)
      ensures data == Part(Data(), old(fptr), fptr)
      ensures res == FR_OK ==> Position(fs.g, Cur()) && 0 < |data| <= btr
      ensures res != FR_OK ==> res == FR_DISK_ERR && data == []
    {
      var cc := btr / 512;
      var csect := SectorIn(fs.g.csize, SectorOf(fptr));
      if csect + cc > fs.g.csize { cc := fs.g.csize - csect; }
      var ok;
      ok, data := FetchDirect(s, cc);
      if ok {
        AfterDirectRead(fs.g, fs.Image(), fs.winsect, Cur(), s, cc);
        fptr := fptr + 512 * cc;
        res := FR_OK;
      } else {
        PartEmpty(Data(), fptr);
        res, data := FR_DISK_ERR, [];
      }
    }

    /** The sector at the cursor is made the cached one, or as many whole sectors as are wanted are read past the
        cache. */
    method ReadBoundary(btr: nat) returns (res: FResult, direct: bool, data: seq<byte>)
      requires Live() && Position(fs.g, Cur()) && ByteIn(fptr) == 0 && 0 < btr && fptr + btr <= objsize
      modifies fs`disk, fs`wflag, fs`mirrorLost, fs`win, fs`winsect, this`clust, this`dirty, this`buf, this`sect,
          this`fptr
      ensures Whole() && Data() == old(Data()) && fs.Fat() == old(fs.Fat())
      ensures WindowMoved(fs.g, old(fs.winsect), fs.winsect)
      ensures Kept(fs.g, old(fs.Image()), fs.Image(), chain) && Cached(fs.g, chain, old(sect), sect)
      ensures fptr == old(fptr) + |data| && data == Part(Data(), old(fptr), fptr)
      ensures res == FR_OK ==>
                && Live()
                && if direct then Position(fs.g, Cur()) && 0 < |data| <= btr
                   else Here(fs.g, Cur(), sect) && data == []
      ensures res != FR_OK ==> res == FR_DISK_ERR && data == []
    {
      data, direct := [], false;
      KeptSame(fs.g, fs.Image(), chain);
      CachedSame(fs.g, chain, sect);
      PartEmpty(Data(), fptr);
      res := ToCluster();
      CoreFacts(fs.g, fs.Image(), fs.winsect, Cur());
      if res == FR_OK {
        var s := ToSector();
        direct := btr / 512 > 0;
        if direct {
          res, data := TakeDirect(s, btr);
          CoreFacts(fs.g, fs.Image(), fs.winsect, Cur());
        } else {
          res := Load(s);
        }
      }
    }

    /** One round of the loop of f_read. */
    method ReadStep(btr: nat) returns (res: FResult, data: seq<byte>)
      requires Live() && Position(fs.g, Cur()) && 0 < btr && fptr + btr <= objsize
      modifies fs`disk, fs`wflag, fs`mirrorLost, fs`win, fs`winsect, this`clust, this`dirty, this`buf, this`sect,
          this`fptr
      ensures Whole() && Data() == old(Data()) && fs.Fat() == old(fs.Fat())
      ensures WindowMoved(fs.g, old(fs.winsect), fs.winsect)
      ensures Kept(fs.g, old(fs.Image()), fs.Image(), chain) && Cached(fs.g, chain, old(sect), sect)
      ensures fptr == old(fptr) + |data| && data == Part(Data(), old(fptr), fptr)
      ensures res == FR_OK ==> Live() && Position(fs.g, Cur()) && 0 < |data| <= btr
      ensures res != FR_OK ==> res == FR_DISK_ERR && data == []
    {
      res, data := FR_OK, [];
      var direct := false;
      if ByteIn(fptr) == 0 {
        res, direct, data := ReadBoundary(btr);
      } else {
        KeptSame(fs.g, fs.Image(), chain);
        CachedSame(fs.g, chain, sect);
        OffBoundary(fs.g, Cur());
      }
      if res == FR_OK && !direct {
        data := TakeCached(btr);
        CoreFacts(fs.g, fs.Image(), fs.winsect, Cur());
      }
    }

    /** f_read: up to `btr` bytes at the cursor, fewer only at the end of the file or on a disk error. */
    method Read(btr: nat) returns (res: FResult, data: seq<byte>)
      requires Valid()
      modifies fs, this
      ensures Valid() && Data() == old(Data()) && fs.Fat() == old(fs.Fat())
      ensures WindowMoved(fs.g, old(fs.winsect), fs.winsect)
      ensures Kept(fs.g, old(fs.Image()), fs.Image(), chain) && Cached(fs.g, chain, old(sect), sect)
      ensures fptr == old(fptr) + |data| && data == Part(Data(), old(fptr), fptr)
      ensures if old(err) != FR_OK then res == old(err) && data == []
              else if !canRead then res == FR_DENIED && data == []
              else (res == FR_OK && |data| == Min(btr, Left(objsize, old(fptr)))) || (res == FR_DISK_ERR && err == res)
      ensures chain == old(chain) && sclust == old(sclust) && objsize == old(objsize) && (res == FR_OK ==> err == FR_OK)
      ensures old(EntryPlaced()) ==> EntryPlaced()
      ensures old(err) != FR_OK || !canRead ==> unchanged(this) && unchanged(fs)
    {
      res, data := err, [];
      KeptSame(fs.g, fs.Image(), chain);
      CachedSame(fs.g, chain, sect);
      PartEmpty(Data(), fptr);
      if res != FR_OK { return; }
      if !canRead { return FR_DENIED, data; }
      CoreFacts(fs.g, fs.Image(), fs.winsect, Cur());
      res, data := ReadLoop(Min(btr, objsize - fptr));
      EntryStays(old(fs.Image()), old(Cur()), chain);
      if res != FR_OK { Fail(res); }
    }

    method ReadLoop(btr: nat) returns (res: FResult, data: seq<byte>)
      requires Live() && Position(fs.g, Cur()) && fptr + btr <= objsize
      modifies fs`disk, fs`wflag, fs`mirrorLost, fs`win, fs`winsect, this`clust, this`dirty, this`buf, this`sect,
          this`fptr
      ensures Whole() && Data() == old(Data()) && fs.Fat() == old(fs.Fat())
      ensures WindowMoved(fs.g, old(fs.winsect), fs.winsect)
      ensures Kept(fs.g, old(fs.Image()), fs.Image(), chain) && Cached(fs.g, chain, old(sect), sect)
      ensures fptr == old(fptr) + |data| && data == Part(Data(), old(fptr), fptr)
      ensures res == FR_OK ==> Live() && Position(fs.g, Cur()) && |data| == btr
      ensures res != FR_OK ==> res == FR_DISK_ERR
    {
      res, data := FR_OK, [];
      KeptSame(fs.g, fs.Image(), chain);
      CachedSame(fs.g, chain, sect);
      PartEmpty(Data(), fptr);
      CoreFacts(fs.g, fs.Image(), fs.winsect, Cur());
      var todo: nat := btr;
      while todo > 0 && res == FR_OK
        invariant Whole() && Data() == old(Data()) && fs.Fat() == old(fs.Fat())
        invariant WindowMoved(fs.g, old(fs.winsect), fs.winsect)
        invariant Kept(fs.g, old(fs.Image()), fs.Image(), chain) && Cached(fs.g, chain, old(sect), sect)
        invariant fptr == old(fptr) + |data| && data == Part(Data(), old(fptr), fptr)
        invariant res == FR_OK ==> Live() && Position(fs.g, Cur()) && todo + |data| == btr && fptr + todo <= objsize
        invariant res != FR_OK ==> res == FR_DISK_ERR
        decreases todo, res == FR_OK
      {
        ghost var v, p, s := fs.Image(), fptr, sect;
        var more;
        res, more := ReadStep(todo);
        KeptTwice(fs.g, old(fs.Image()), v, fs.Image(), chain, chain);
        CachedTwice(fs.g, chain, chain, old(sect), s, sect);
        if res == FR_OK {
          CoreFacts(fs.g, fs.Image(), fs.winsect, Cur());
          PartJoin(Data(), old(fptr), p, fptr);
          data := data + more;
          todo := todo - |more|;
        }
      }
    }

    // Writing.

    method Create(c: nat) returns (r: nat)
      requires Live()
      modifies fs
      ensures fs.Valid() && Created(fs.g, old(fs.Image()), old(fs.winsect), c, r, fs.Image(), fs.winsect)
      ensures r != DISK_ERROR ==> CountOk(fs)
    {
      ghost var v, w := fs.Image(), fs.winsect;
      CoreFacts(fs.g, v, w, Cur());
      r := CreateChain(fs, c);
      CreatedAfterIs(fs.g, v, w, c, r, fs.Image(), fs.winsect, |v.rest|);
    }

    /** create_chain, and what the file will be once it has taken the cluster. */
    method Allocate(c: nat) returns (r: nat, ghost own: seq<nat>, ghost x: Cursor)
      requires Live() && Stretchable(fs.Fat(), chain, c)
      modifies fs
      ensures fs.Valid() && Owned(fs.g, old(fs.Image()), fs.Image(), chain, own)
      ensures WindowMoved(fs.g, old(fs.winsect), fs.winsect)
      ensures r == DISK_ERROR ==> Whole() && Data() == old(Data()) && chain <= own
      ensures r != DISK_ERROR ==>
                CountOk(fs) && Core(fs.g, fs.Image(), fs.winsect, x) && Contents(fs.g, fs.Image(), x) == old(Data())
      ensures r != DISK_ERROR ==> own == x.chain && Stretched(fs.g, old(fs.Image()), Cur(), c, r, fs.Image(), x)
      ensures r != DISK_ERROR ==> x == Cur().(chain := own, sclust := if r != 0 && sclust == 0 then r else sclust)
    {
      ghost var v, w := fs.Image(), fs.winsect;
      r := Create(c);
      own, x := chain, Cur();
      if r == DISK_ERROR {
        own := AfterFailedCreate(fs.g, v, w, x, c, fs.Image(), fs.winsect);
      } else {
        AfterCreate(fs.g, v, w, x, c, r, fs.Image(), fs.winsect);
        x := if Followed(v.table, c, r) then x else Longer(x, r);
        StretchedFields(fs.g, v, w, Cur(), c, r, fs.Image(), x);
        own := x.chain;
      }
    }

    /** create_chain on behalf of the file. */
    method Stretch(c: nat) returns (r: nat, ghost own: seq<nat>)
      requires Live() && Stretchable(fs.Fat(), chain, c)
      modifies fs, this`chain, this`sclust
      ensures fs.Valid() && Data() == old(Data()) && Owned(fs.g, old(fs.Image()), fs.Image(), old(chain), own)
      ensures WindowMoved(fs.g, old(fs.winsect), fs.winsect)
      ensures r == DISK_ERROR ==> Whole() && Cur() == old(Cur()) && chain <= own
      ensures r != DISK_ERROR ==>
                Live() && own == chain && Stretched(fs.g, old(fs.Image()), old(Cur()), c, r, fs.Image(), Cur())
    {
      ghost var x;
      r, own, x := Allocate(c);
      if r != 0 && r != DISK_ERROR && sclust == 0 { sclust := r; }
      if r != DISK_ERROR { chain := own; }
    }

    /** On a cluster boundary: the cluster of the byte at the cursor, a new one if need be, 0 if the drive is full. */
    method StretchHere() returns (clst: nat, ghost own: seq<nat>)
      requires Live() && Position(fs.g, Cur()) && AtStart(fs.g, fptr)
      modifies fs, this`chain, this`sclust
      ensures fs.Valid() && Data() == old(Data()) && Owned(fs.g, old(fs.Image()), fs.Image(), old(chain), own)
      ensures WindowMoved(fs.g, old(fs.winsect), fs.winsect)
      ensures Cur() == old(Cur()).(chain := chain, sclust := sclust)
      ensures clst == DISK_ERROR ==> Whole() && chain <= own
      ensures clst != DISK_ERROR ==> Live() && own == chain
      ensures clst == 0 ==> FreeCount(fs.Fat()) == 0 && Cur() == old(Cur())
      ensures clst != DISK_ERROR && clst != 0 ==> 2 <= clst && IsNext(fs.g, Cur(), clst)
    {
      ghost var v, w, x := fs.Image(), fs.winsect, Cur();
      AtBoundary(fs.g, v, w, x);
      if fptr == 0 && sclust != 0 {
        clst, own := sclust, chain;
        OwnedSame(fs.g, v, chain);
        CoreFacts(fs.g, v, w, x);
      } else {
        clst, own := Stretch(if fptr == 0 then 0 else clust);
        if clst != DISK_ERROR && clst != 0 {
          NextFound(fs.g, v, w, x, clst, fs.Image(), Cur());
        }
      }
    }

    /** On a sector boundary: the current cluster becomes that of the byte at the cursor, unless the drive is full. */
    method ToNewCluster() returns (res: FResult, full: bool, ghost own: seq<nat>)
      requires Live() && Position(fs.g, Cur()) && ByteIn(fptr) == 0
      modifies fs, this`chain, this`sclust, this`clust
      ensures fs.Valid() && Data() == old(Data()) && Owned(fs.g, old(fs.Image()), fs.Image(), old(chain), own)
      ensures WindowMoved(fs.g, old(fs.winsect), fs.winsect)
      ensures Cur() == old(Cur()).(chain := chain, sclust := sclust, clust := clust)
      ensures res == FR_OK ==> Live() && own == chain
      ensures res == FR_OK && full ==> FreeCount(fs.Fat()) == 0 && Cur() == old(Cur())
      ensures res == FR_OK && !full ==> IsNext(fs.g, Cur(), clust)
      ensures res != FR_OK ==> res == FR_DISK_ERR && Whole() && chain <= own
    {
      res, full, own := FR_OK, false, chain;
      if SectorIn(fs.g.csize, SectorOf(fptr)) == 0 {
        var clst;
        clst, own := StretchHere();
        if clst == 0 {
          full := true;
        } else if clst == 1 {
          res := FR_INT_ERR;
        } else if clst == DISK_ERROR {
          res := FR_DISK_ERR;
        } else {
          AfterMove(fs.g, fs.Image(), fs.winsect, Cur(), clst);
          clust := clst;
        }
      } else {
        OwnedSame(fs.g, fs.Image(), chain);
        InsideCluster(fs.g, Cur());
      }
    }

    /** Writes whole sectors at the cursor straight to the drive, and keeps the cache up to date. */
    method SendRun(s: nat, data: seq<byte>, cc: nat) returns (res: FResult)
      requires Live() && !dirty && Here(fs.g, Cur(), s) && ByteIn(fptr) == 0
      requires && 0 < cc && SectorIn(fs.g.csize, SectorOf(fptr)) + cc <= fs.g.csize && |data| == 512 * cc
               && fptr + |data| < 0x1_0000_0000
      modifies fs`disk, this`buf, this`fptr, this`objsize
      ensures fs.Valid() && Kept(fs.g, old(fs.Image()), fs.Image(), chain) && fs.Fat() == old(fs.Fat())
      ensures res == FR_OK ==> Live() && Position(fs.g, Cur()) && Written(old(Data()), old(fptr), data, Data(), fptr)
      ensures res != FR_OK ==> res == FR_DISK_ERR && Whole() && Spoiled(old(Data()), old(fptr), Data(), fptr)
    {
      var ok;
      ghost var stored: seq<Sector>, x: Cursor;
      ok, stored, x := Send(s, data, cc);
      if ok {
        PassRun(s, data, cc, stored);
      }
      res := if ok then FR_OK else FR_DISK_ERR;
    }

    /** The transfer itself, and what the file will be once the cursor has been moved past it. */
    method Send(s: nat, data: seq<byte>, cc: nat) returns (ok: bool, ghost stored: seq<Sector>, ghost x: Cursor)
      requires Live() && !dirty && Here(fs.g, Cur(), s) && ByteIn(fptr) == 0
      requires && 0 < cc && SectorIn(fs.g.csize, SectorOf(fptr)) + cc <= fs.g.csize && |data| == 512 * cc
               && fptr + |data| < 0x1_0000_0000
      modifies fs`disk
      ensures fs.Valid() && Kept(fs.g, old(fs.Image()), fs.Image(), chain) && fs.Fat() == old(fs.Fat())
      ensures |stored| == cc && sect < 0x1_0000_0000 && s + cc < 0x1_0000_0000
      ensures ok ==> Flat(stored) == data && CountOk(fs) && x == AfterRun(fs.g, Cur(), s, stored)
      ensures ok ==> Core(fs.g, fs.Image(), fs.winsect, x) && Position(fs.g, x)
      ensures ok ==> Written(old(Data()), fptr, data, Contents(fs.g, fs.Image(), x), x.fptr)
      ensures !ok ==> Whole() && Spoiled(old(Data()), fptr, Data(), fptr)
    {
      ghost var v := fs.Image();
      RunApart(fs.g, v, fs.winsect, Cur(), s, cc);
      ok, stored := WriteRun(fs, data, s, cc);
      x := AfterRun(fs.g, Cur(), s, stored);
      if ok {
        AfterDirectWrite(fs.g, v, fs.winsect, Cur(), s, stored);
      } else {
        AfterFailedWrite(fs.g, v, fs.winsect, Cur(), s, stored);
      }
    }

    /** Moves the cursor past sectors just written. */
    method PassRun(s: nat, data: seq<byte>, cc: nat, ghost stored: seq<Sector>)
      requires |data| == 512 * cc && sect < 0x1_0000_0000 && s + cc < 0x1_0000_0000 && |stored| == cc
      requires Flat(stored) == data
      modifies this`buf, this`fptr, this`objsize
      ensures Cur() == AfterRun(fs.g, old(Cur()), s, stored)
    {
      RefreshedIs(buf, stored, sect, s);
      buf, fptr, objsize := Refreshed(buf, data, sect, s, cc), fptr + 512 * cc, Max(objsize, fptr + 512 * cc);
    }

    /** Writes as many whole sectors as there are for the current cluster. */
    method PutDirect(s: nat, data: seq<byte>) returns (res: FResult, n: nat)
      requires && Live() && !dirty && Here(fs.g, Cur(), s) && ByteIn(fptr) == 0 && 512 <= |data|
               && fptr + |data| < 0x1_0000_0000
      modifies fs`disk, this`buf, this`fptr, this`objsize
      ensures fs.Valid() && Kept(fs.g, old(fs.Image()), fs.Image(), chain) && fs.Fat() == old(fs.Fat())
      ensures res == FR_OK ==>
                && Live() && Position(fs.g, Cur()) && 0 < n <= |data|
                && Written(old(Data()), old(fptr), data[..n], Data(), fptr)
      ensures res != FR_OK ==> res == FR_DISK_ERR && Whole() && Spoiled(old(Data()), old(fptr), Data(), fptr)
    {
      var cc := |data| / 512;
      var csect := SectorIn(fs.g.csize, SectorOf(fptr));
      if csect + cc > fs.g.csize { cc := fs.g.csize - csect; }
      n := 512 * cc;
      res := SendRun(s, data[..n], cc);
    }

    /** What the sector at the cursor holds, if that matters. */
    method FetchBase(s: nat) returns (ok: bool, base: Sector)
      requires Live() && Here(fs.g, Cur(), s) && (sect == s || (!dirty && ByteIn(fptr) == 0))
      ensures ok ==> IsBase(fs.g, fs.Image().rest, Cur(), s, base)
      ensures !ok ==> !dirty
    {
      base, ok := buf, true;
      HereFacts(fs.g, fs.Image(), fs.winsect, Cur(), s);
      CoreFacts(fs.g, fs.Image(), fs.winsect, Cur());
      if sect != s && fptr < objsize {
        ok, base := ReadSector(fs, s);
      }
    }

    /** Copies `data` into the cached sector and moves the cursor past it. */
    method CopyIn(s: nat, base: Sector, data: seq<byte>)
      requires Live() && Here(fs.g, Cur(), s) && IsBase(fs.g, fs.Image().rest, Cur(), s, base)
      requires 0 < |data| && ByteIn(fptr) + |data| <= 512 && fptr + |data| < 0x1_0000_0000
      modifies this`buf, this`sect, this`dirty, this`fptr, this`objsize
      ensures Live() && Position(fs.g, Cur()) && Written(old(Data()), old(fptr), data, Data(), fptr) && sect == s
    {
      AfterCacheWrite(fs.g, fs.Image(), fs.winsect, Cur(), s, base, data);
      buf, sect, dirty, fptr, objsize := Patch(base, ByteIn(fptr), data), s, true, fptr + |data|, Max(objsize,
          fptr + |data|);
    }

    /** Puts what there is for the sector at the cursor into the cache. */
    method PutCached(s: nat, data: seq<byte>) returns (res: FResult, n: nat)
      requires Live() && Here(fs.g, Cur(), s) && 0 < |data| && fptr + |data| < 0x1_0000_0000
      requires sect == s || (!dirty && ByteIn(fptr) == 0)
      modifies this`buf, this`sect, this`dirty, this`fptr, this`objsize
      ensures Cached(fs.g, chain, old(sect), sect)
      ensures res == FR_OK ==>
                && Live() && Position(fs.g, Cur()) && 0 < n <= |data|
                && Written(old(Data()), old(fptr), data[..n], Data(), fptr)
      ensures res != FR_OK ==> res == FR_DISK_ERR && Whole() && Spoiled(old(Data()), old(fptr), Data(), fptr)
    {
      CachedSame(fs.g, chain, sect);
      CachedHere(fs.g, Cur(), s, sect);
      var ok, base := FetchBase(s);
      n := 0;
      if ok {
        n := 512 - ByteIn(fptr);
        if n > |data| { n := |data|; }
        CopyIn(s, base, data[..n]);
        res := FR_OK;
      } else {
        AfterBadRead(fs.g, fs.Image(), fs.winsect, Cur(), base);
        buf := base;
        res := FR_DISK_ERR;
      }
    }

    /** On a sector boundary, once the current cluster is known: writes past the cache or into it. */
    method PutHere(data: seq<byte>) returns (res: FResult, n: nat)
      requires Live() && IsNext(fs.g, Cur(), clust) && ByteIn(fptr) == 0 && 0 < |data| && fptr + |data| < 0x1_0000_0000
      modifies fs`disk, this`buf, this`sect, this`dirty, this`fptr, this`objsize
      ensures fs.Valid() && Kept(fs.g, old(fs.Image()), fs.Image(), chain) && fs.Fat() == old(fs.Fat())
      ensures Cached(fs.g, chain, old(sect), sect)
      ensures res == FR_OK ==>
                && Live() && Position(fs.g, Cur()) && 0 < n <= |data|
                && Written(old(Data()), old(fptr), data[..n], Data(), fptr)
      ensures res != FR_OK ==> res == FR_DISK_ERR && Whole() && Spoiled(old(Data()), old(fptr), Data(), fptr)
    {
      ghost var v := fs.Image();
      CoreFacts(fs.g, v, fs.winsect, Cur());
      CachedSame(fs.g, chain, sect);
      n := 0;
      var ok := WriteBack();
      if ok {
        var s := ToSector();
        if |data| / 512 > 0 {
          ghost var v' := fs.Image();
          res, n := PutDirect(s, data);
          KeptTwice(fs.g, v, v', fs.Image(), chain, chain);
        } else {
          res, n := PutCached(s, data);
        }
      } else {
        res := FR_DISK_ERR;
      }
    }

    /** One round of the loop of f_write. */
    method WriteStep(data: seq<byte>) returns (res: FResult, n: nat, full: bool, ghost own: seq<nat>)
      requires Live() && Position(fs.g, Cur()) && 0 < |data| && fptr + |data| < 0x1_0000_0000
      modifies fs, this`chain, this`sclust, this`clust, this`buf, this`sect, this`dirty, this`fptr, this`objsize
      ensures fs.Valid() && Owned(fs.g, old(fs.Image()), fs.Image(), old(chain), own)
      ensures WindowMoved(fs.g, old(fs.winsect), fs.winsect)
      ensures chain <= own && Cached(fs.g, own, old(sect), sect)
      ensures res == FR_OK ==>
                && Live() && Position(fs.g, Cur()) && own == chain && n <= |data|
                && Written(old(Data()), old(fptr), data[..n], Data(), fptr)
      ensures res == FR_OK ==> if full then n == 0 && FreeCount(fs.Fat()) == 0 else n > 0
      ensures res != FR_OK ==> res == FR_DISK_ERR && Whole() && Spoiled(old(Data()), old(fptr), Data(), fptr)
    {
      full, n, own := false, 0, chain;
      CoreFacts(fs.g, fs.Image(), fs.winsect, Cur());
      if ByteIn(fptr) == 0 {
        ghost var v := fs.Image();
        res, full, own := ToNewCluster();
        CachedSame(fs.g, own, sect);
        if res == FR_OK && !full {
          ghost var v', w', x' := fs.Image(), fs.winsect, Cur();
          res, n := PutHere(data);
          OwnedMore(fs.g, v, v', fs.Image(), old(chain), w', x', chain);
        }
      } else {
        OwnedSame(fs.g, fs.Image(), chain);
        OffBoundary(fs.g, Cur());
        res, n := PutCached(sect, data);
      }
      if full {
        WrittenNothing(Data(), fptr);
      }
    }

    method WriteLoop(data: seq<byte>) returns (res: FResult, bw: nat, full: bool, ghost own: seq<nat>)
      requires Live() && Position(fs.g, Cur()) && fptr + |data| < 0x1_0000_0000
      modifies fs, this`chain, this`sclust, this`clust, this`buf, this`sect, this`dirty, this`fptr, this`objsize
      ensures fs.Valid() && Owned(fs.g, old(fs.Image()), fs.Image(), old(chain), own) && bw <= |data|
      ensures WindowMoved(fs.g, old(fs.winsect), fs.winsect)
      ensures chain <= own && Cached(fs.g, own, old(sect), sect)
      ensures res == FR_OK ==>
                && Live() && Position(fs.g, Cur()) && own == chain
                && Written(old(Data()), old(fptr), data[..bw], Data(), fptr)
      ensures res == FR_OK && bw < |data| ==> FreeCount(fs.Fat()) == 0
      ensures res != FR_OK ==>
                res == FR_DISK_ERR && Whole() && Damaged(old(Data()), old(fptr), data[..bw], Data(), fptr)
    {
      res, bw, full, own := FR_OK, 0, false, chain;
      CoreFacts(fs.g, fs.Image(), fs.winsect, Cur());
      OwnedSame(fs.g, fs.Image(), chain);
      CachedSame(fs.g, chain, sect);
      WrittenNothing(Data(), fptr);
      assert data[..0] == [];
      while bw < |data| && res == FR_OK && !full
        invariant fs.Valid() && Owned(fs.g, old(fs.Image()), fs.Image(), old(chain), own) && bw <= |data|
        invariant chain <= own && Cached(fs.g, own, old(sect), sect) && WindowMoved(fs.g, old(fs.winsect), fs.winsect)
        invariant res == FR_OK ==>
                    && Live() && Position(fs.g, Cur()) && own == chain
                    && Written(old(Data()), old(fptr), data[..bw], Data(), fptr)
        invariant res == FR_OK && full ==> FreeCount(fs.Fat()) == 0
        invariant res != FR_OK ==>
                    res == FR_DISK_ERR && Whole() && Damaged(old(Data()), old(fptr), data[..bw], Data(), fptr)
        decreases |data| - bw, !full, res == FR_OK
      {
        ghost var v, w, x, b, p := fs.Image(), fs.winsect, Cur(), Data(), fptr;
        WrittenIs(old(Data()), old(fptr), data[..bw], b, p);
        var n;
        res, n, full, own := WriteStep(data[bw..]);
        OwnedMore(fs.g, old(fs.Image()), v, fs.Image(), old(chain), w, x, own);
        CachedMore(fs.g, v, fs.Image(), x.chain, own, old(sect), x.sect, sect);
        if res == FR_OK {
          WrittenMore(old(Data()), old(fptr), data, bw, b, p, n, Data(), fptr);
          bw := bw + n;
        } else {
          WrittenThenSpoiled(old(Data()), old(fptr), data[..bw], b, p, Data(), fptr);
        }
      }
    }

    /** f_write on a file that may be written. */
    method WriteClipped(data: seq<byte>) returns (res: FResult, bw: nat, ghost own: seq<nat>)
      requires Live() && Position(fs.g, Cur()) && |data| < 0x1_0000_0000
      modifies fs, this`chain, this`sclust, this`clust, this`buf, this`sect, this`dirty, this`fptr, this`objsize
      ensures fs.Valid() && Owned(fs.g, old(fs.Image()), fs.Image(), old(chain), own) && bw <= |data|
      ensures WindowMoved(fs.g, old(fs.winsect), fs.winsect)
      ensures chain <= own && Cached(fs.g, own, old(sect), sect)
      ensures Whole() && (res == FR_OK ==> Live() && Position(fs.g, Cur()) && own == chain)
      ensures res == FR_OK ==> Written(old(Data()), old(fptr), data[..bw], Data(), fptr)
      ensures res == FR_OK && bw < |data| ==> FreeCount(fs.Fat()) == 0 || fptr == 0xFFFF_FFFF
      ensures res != FR_OK ==> res == FR_DISK_ERR && Damaged(old(Data()), old(fptr), data[..bw], Data(), fptr)
    {
      CoreFacts(fs.g, fs.Image(), fs.winsect, Cur());
      IntactFacts(fs.g, fs.Image(), fs.winsect, Cur());
      var btw := |data|;
      if (fptr + btw) % 0x1_0000_0000 < fptr {
        btw := 0xFFFF_FFFF - fptr;
      }
      ClipTest(fptr, |data|);
      var full;
      res, bw, full, own := WriteLoop(data[..btw]);
      assert data[..btw][..bw] == data[..bw];
      if res == FR_OK {
        CoreFacts(fs.g, fs.Image(), fs.winsect, Cur());
        WrittenIs(old(Data()), old(fptr), data[..bw], Data(), fptr);
      }
    }

    method WriteLive(data: seq<byte>) returns (res: FResult, bw: nat, ghost own: seq<nat>)
      requires Valid() && err == FR_OK && |data| < 0x1_0000_0000
      modifies fs, this
      ensures Valid() && Owned(fs.g, old(fs.Image()), fs.Image(), old(chain), own) && bw <= |data|
      ensures chain <= own && Cached(fs.g, own, old(sect), sect)
      ensures WindowMoved(fs.g, old(fs.winsect), fs.winsect)
      ensures res == FR_OK || (res == FR_DISK_ERR && err == res)
      ensures res == FR_OK ==>
                err == FR_OK && modified && own == chain && Written(old(Data()), old(fptr), data[..bw], Data(), fptr)
      ensures res == FR_OK && bw < |data| ==> FreeCount(fs.Fat()) == 0 || fptr == 0xFFFF_FFFF
      ensures res == FR_DISK_ERR ==> Damaged(old(Data()), old(fptr), data[..bw], Data(), fptr)
      ensures old(EntryPlaced()) ==> EntryPlaced()
    {
      res, bw, own := WriteClipped(data);
      EntryStays(old(fs.Image()), old(Cur()), own);
      if res == FR_OK {
        Touch();
      } else {
        Fail(res);
      }
    }

    /** f_write: `data` over the file from the cursor on, less of it only if that would make the file 4 GiB long, no
        free cluster is left, or a disk error stops it. */
    method Write(data: seq<byte>) returns (res: FResult, bw: nat, ghost own: seq<nat>)
      requires Valid() && |data| < 0x1_0000_0000
      modifies fs, this
      ensures Valid() && Owned(fs.g, old(fs.Image()), fs.Image(), old(chain), own) && bw <= |data|
      ensures chain <= own && Cached(fs.g, own, old(sect), sect)
      ensures WindowMoved(fs.g, old(fs.winsect), fs.winsect)
      ensures if old(err) != FR_OK then res == old(err) && bw == 0 && Data() == old(Data()) && Cur() == old(Cur())
              else if !canWrite then res == FR_DENIED && bw == 0 && Data() == old(Data()) && Cur() == old(Cur())
              else res == FR_OK || (res == FR_DISK_ERR && err == res)
      ensures res == FR_OK ==>
                err == FR_OK && modified && own == chain && Written(old(Data()), old(fptr), data[..bw], Data(), fptr)
      ensures res == FR_OK && bw < |data| ==> FreeCount(fs.Fat()) == 0 || fptr == 0xFFFF_FFFF
      ensures old(err) == FR_OK && res == FR_DISK_ERR ==> Damaged(old(Data()), old(fptr), data[..bw], Data(), fptr)
      ensures old(EntryPlaced()) ==> EntryPlaced()
      ensures old(err) != FR_OK || !canWrite ==> unchanged(this) && unchanged(fs)
    {
      if err != FR_OK || !canWrite {
        OwnedSame(fs.g, fs.Image(), chain);
        CachedSame(fs.g, chain, sect);
        return if err != FR_OK then err else FR_DENIED, 0, chain;
      }
      res, bw, own := WriteLive(data);
    }

    // Seeking. The offset reached so far, which the source keeps in fptr, is the variable `p` here.

    /** Where to start from: the current cluster if the offset sought is not before it, else the first one. */
    method SeekStart(ofs: nat) returns (res: FResult, p: nat, clst: nat, ghost own: seq<nat>)
      requires Live() && Position(fs.g, Cur()) && 0 < ofs && (canWrite || ofs <= objsize)
      modifies fs, this`chain, this`sclust, this`clust
      ensures fs.Valid() && Data() == old(Data()) && Owned(fs.g, old(fs.Image()), fs.Image(), old(chain), own)
      ensures WindowMoved(fs.g, old(fs.winsect), fs.winsect)
      ensures Cur() == old(Cur()).(chain := chain, sclust := sclust, clust := clust)
      ensures res == FR_OK ==> Live() && own == chain && clust == clst
      ensures res == FR_OK && clst != 0 ==> p < ofs && OnTrack(fs.g, Cur(), p, clst)
      ensures res == FR_OK && clst == 0 ==> canWrite && p == 0 && chain == [] && FreeCount(fs.Fat()) == 0
      ensures !canWrite ==> fs.Fat() == old(fs.Fat())
      ensures res != FR_OK ==> res == FR_DISK_ERR && Whole() && chain <= own
    {
      var bcs := fs.g.csize * 512;
      res, p, own := FR_OK, 0, chain;
      CoreFacts(fs.g, fs.Image(), fs.winsect, Cur());
      if fptr > 0 && (ofs - 1) / bcs >= (fptr - 1) / bcs {
        TrackHere(fs.g, fs.Image(), fs.winsect, Cur(), ofs);
        OwnedSame(fs.g, fs.Image(), chain);
        p := (fptr - 1) - (fptr - 1) % bcs;
        clst := clust;
      } else {
        res, clst, own := SeekFirst();
      }
    }

    /** The first cluster of the file, a new one if it has none. */
    method FirstCluster() returns (clst: nat, ghost own: seq<nat>)
      requires Live() && (canWrite || objsize > 0)
      modifies fs, this`chain, this`sclust
      ensures fs.Valid() && Data() == old(Data()) && Owned(fs.g, old(fs.Image()), fs.Image(), old(chain), own)
      ensures WindowMoved(fs.g, old(fs.winsect), fs.winsect)
      ensures clst == DISK_ERROR ==> Whole() && chain <= own
      ensures clst != DISK_ERROR ==>
                && Live() && own == chain && sclust == clst != 1
                && (clst == 0 ==> canWrite && chain == [] && FreeCount(fs.Fat()) == 0)
      ensures !canWrite ==> fs.Fat() == old(fs.Fat())
    {
      own, clst := chain, sclust;
      CoreFacts(fs.g, fs.Image(), fs.winsect, Cur());
      if objsize > 0 { NeedsChain(fs.g, fs.Image(), fs.winsect, Cur()); }
      if clst == 0 {
        clst, own := Stretch(0);
      } else {
        TrackHead(fs.g, fs.Image(), fs.winsect, Cur());
        TrackOn(fs.g, fs.Image(), fs.winsect, Cur(), 0, clst);
        OwnedSame(fs.g, fs.Image(), chain);
      }
    }

    method SeekFirst() returns (res: FResult, clst: nat, ghost own: seq<nat>)
      requires Live() && (canWrite || objsize > 0)
      modifies fs, this`chain, this`sclust, this`clust
      ensures fs.Valid() && Data() == old(Data()) && Owned(fs.g, old(fs.Image()), fs.Image(), old(chain), own)
      ensures WindowMoved(fs.g, old(fs.winsect), fs.winsect)
      ensures res == FR_OK ==> Live() && own == chain && clust == clst
      ensures res == FR_OK ==>
                if clst != 0 then OnTrack(fs.g, Cur(), 0, clst)
                else canWrite && chain == [] && FreeCount(fs.Fat()) == 0
      ensures !canWrite ==> fs.Fat() == old(fs.Fat())
      ensures res != FR_OK ==> res == FR_DISK_ERR && Whole() && chain <= own
    {
      clst, own := FirstCluster();
      if clst == 1 { return FR_INT_ERR, clst, own; }
      if clst == DISK_ERROR { return FR_DISK_ERR, clst, own; }
      AfterMove(fs.g, fs.Image(), fs.winsect, Cur(), clst);
      clust := clst;
      if clst != 0 {
        TrackHead(fs.g, fs.Image(), fs.winsect, Cur());
      }
      res := FR_OK;
    }

    /** In write mode, from cluster `clst` at offset `p` to the next one, created if need be. */
    method SeekCreate(p: nat, clst: nat) returns (nxt: nat, ghost own: seq<nat>)
      requires Live() && OnTrack(fs.g, Cur(), p, clst)
      modifies fs, this`chain, this`sclust
      ensures fs.Valid() && Data() == old(Data()) && Owned(fs.g, old(fs.Image()), fs.Image(), old(chain), own)
      ensures WindowMoved(fs.g, old(fs.winsect), fs.winsect)
      ensures nxt == DISK_ERROR ==> Whole() && chain <= own
      ensures nxt != DISK_ERROR ==> Live() && own == chain
      ensures nxt != DISK_ERROR && nxt != 0 ==> OnTrack(fs.g, Cur(), p + fs.g.csize * 512, nxt)
      ensures nxt == 0 ==> FreeCount(fs.Fat()) == 0 && Full(fs.g, Cur(), p + fs.g.csize * 512, clst)
    {
      ghost var v, x := fs.Image(), Cur();
      TrackOn(fs.g, v, fs.winsect, x, p, clst);
      nxt, own := Stretch(clst);
      if nxt != DISK_ERROR && !Followed(v.table, clst, nxt) {
        TrackNew(fs.g, x, p + fs.g.csize * 512, nxt);
      }
    }

    /** In read mode. */
    method SeekFollow(p: nat, clst: nat) returns (nxt: nat)
      requires Live() && OnTrack(fs.g, Cur(), p, clst) && p + fs.g.csize * 512 < objsize
      modifies fs`disk, fs`wflag, fs`mirrorLost, fs`win, fs`winsect
      ensures Live() && fs.Image() == old(fs.Image())
      ensures WindowMoved(fs.g, old(fs.winsect), fs.winsect)
      ensures nxt == DISK_ERROR || (nxt != 0 && OnTrack(fs.g, Cur(), p + fs.g.csize * 512, nxt))
    {
      TrackOn(fs.g, fs.Image(), fs.winsect, Cur(), p, clst);
      TrackInside(fs.g, fs.Image(), fs.winsect, Cur(), p, clst);
      TrackOn(fs.g, fs.Image(), fs.winsect, Cur(), p + fs.g.csize * 512, fs.Fat()[clst]);
      nxt := Peek(clst);
    }

    /** One round of the cluster following loop. */
    method SeekStep(p: nat, clst: nat) returns (res: FResult, nxt: nat, ghost own: seq<nat>)
      requires Live() && OnTrack(fs.g, Cur(), p, clst) && clust == clst && (canWrite || p + fs.g.csize * 512 < objsize)
      modifies fs, this`chain, this`sclust, this`clust
      ensures fs.Valid() && Data() == old(Data()) && Owned(fs.g, old(fs.Image()), fs.Image(), old(chain), own)
      ensures WindowMoved(fs.g, old(fs.winsect), fs.winsect)
      ensures res == FR_OK ==> Live() && own == chain
      ensures res == FR_OK && nxt != 0 ==> clust == nxt && OnTrack(fs.g, Cur(), p + fs.g.csize * 512, nxt)
      ensures res == FR_OK && nxt == 0 ==>
                canWrite && FreeCount(fs.Fat()) == 0 && Full(fs.g, Cur(), p + fs.g.csize * 512, clust)
      ensures !canWrite ==> fs.Fat() == old(fs.Fat())
      ensures res != FR_OK ==> res == FR_DISK_ERR && Whole() && chain <= own
    {
      res := FR_OK;
      if canWrite {
        nxt, own := SeekCreate(p, clst);
      } else {
        own := chain;
        OwnedSame(fs.g, fs.Image(), chain);
        nxt := SeekFollow(p, clst);
        CoreFacts(fs.g, fs.Image(), fs.winsect, Cur());
      }
      if nxt == DISK_ERROR {
        res := FR_DISK_ERR;
      } else if nxt != 0 {
        TrackOn(fs.g, fs.Image(), fs.winsect, Cur(), p + fs.g.csize * 512, nxt);
        CoreFacts(fs.g, fs.Image(), fs.winsect, Cur());
        if nxt <= 1 || nxt >= fs.g.nFatent {
          res := FR_INT_ERR;
        } else {
          AfterMove(fs.g, fs.Image(), fs.winsect, Cur(), nxt);
          clust := nxt;
        }
      }
    }

    /** The cluster following loop: `rest` bytes are left to go from offset `from`. */
    method SeekLoop(from: nat, first: nat, rest: nat)
        returns (res: FResult, p: nat, clst: nat, ofs: nat, ghost own: seq<nat>)
      requires && Live() && OnTrack(fs.g, Cur(), from, first) && clust == first && 0 < rest
               && (canWrite || from + rest <= objsize)
      modifies fs, this`chain, this`sclust, this`clust
      ensures && fs.Valid() && Data() == old(Data()) && Owned(fs.g, old(fs.Image()), fs.Image(), old(chain), own)
              && p + ofs <= from + rest
      ensures WindowMoved(fs.g, old(fs.winsect), fs.winsect)
      ensures res == FR_OK ==> Live() && own == chain
      ensures res == FR_OK && clst != 0 ==>
                && clust == clst && OnTrack(fs.g, Cur(), p, clst) && 0 < ofs <= fs.g.csize * 512
                && p + ofs == from + rest
      ensures res == FR_OK && clst == 0 ==>
                canWrite && ofs == 0 && FreeCount(fs.Fat()) == 0 && Full(fs.g, Cur(), p, clust)
      ensures !canWrite ==> fs.Fat() == old(fs.Fat())
      ensures res != FR_OK ==> res == FR_DISK_ERR && Whole() && chain <= own
    {
      var bcs := fs.g.csize * 512;
      res, p, clst, ofs, own := FR_OK, from, first, rest, chain;
      OwnedSame(fs.g, fs.Image(), chain);
      TrackOn(fs.g, fs.Image(), fs.winsect, Cur(), p, clst);
      while ofs > bcs && res == FR_OK && clst != 0
        invariant fs.Valid() && Data() == old(Data()) && Owned(fs.g, old(fs.Image()), fs.Image(), old(chain), own)
        invariant p + ofs <= from + rest && fptr == old(fptr) && objsize == old(objsize)
        invariant WindowMoved(fs.g, old(fs.winsect), fs.winsect)
        invariant res == FR_OK ==> Live() && own == chain
        invariant res == FR_OK && clst != 0 ==>
                    clust == clst && OnTrack(fs.g, Cur(), p, clst) && 0 < ofs && p + ofs == from + rest
        invariant res == FR_OK && clst == 0 ==>
                    canWrite && ofs == 0 && FreeCount(fs.Fat()) == 0 && Full(fs.g, Cur(), p, clust)
        invariant !canWrite ==> fs.Fat() == old(fs.Fat())
        invariant res != FR_OK ==> res == FR_DISK_ERR && Whole() && chain <= own
        decreases ofs, res == FR_OK, clst != 0
      {
        ghost var v, w, x := fs.Image(), fs.winsect, Cur();
        ofs := ofs - bcs;
        res, clst, own := SeekStep(p, clst);
        OwnedMore(fs.g, old(fs.Image()), v, fs.Image(), old(chain), w, x, own);
        p := p + bcs;
        if res == FR_OK && clst == 0 { ofs := 0; }
      }
    }

    /** Puts the cursor at `p`, in cluster clust, and makes the file longer if need be. */
    method Land(p: nat)
      requires fs.Valid() && err == FR_OK && CountOk(fs) && Core(fs.g, fs.Image(), fs.winsect, Landed(Cur(), p, clust))
      modifies this`fptr, this`objsize, this`modified
      ensures Live() && Cur() == Landed(old(Cur()), p, clust)
      ensures modified == (old(modified) || p > old(objsize))
    {
      fptr := p;
      if fptr > objsize {
        objsize := fptr;
        modified := true;
      }
    }

    /** The end of the walk within cluster clust, `ofs` bytes behind offset `p`. */
    method LandInside(p: nat, ofs: nat) returns (res: FResult)
      requires Live() && OnTrack(fs.g, Cur(), p, clust) && 0 < ofs <= fs.g.csize * 512 && p + ofs < 0x1_0000_0000
      modifies fs`disk, this`fptr, this`objsize, this`modified, this`dirty, this`buf, this`sect
      ensures Whole() && fs.Fat() == old(fs.Fat()) && Kept(fs.g, old(fs.Image()), fs.Image(), chain)
      ensures Cached(fs.g, chain, old(sect), sect)
      ensures fptr == p + ofs && Extended(old(Data()), fptr, Data())
      ensures modified == (old(modified) || p + ofs > old(objsize))
      ensures res == FR_OK ==> Live() && Position(fs.g, Cur())
      ensures res != FR_OK ==> res == FR_DISK_ERR
    {
      TrackEnd(fs.g, fs.Image(), fs.winsect, Cur(), p, clust, ofs);
      CachedSame(fs.g, chain, sect);
      Land(p + ofs);
      res := FR_OK;
      if ByteIn(ofs) != 0 {
        var nsect := Clst2Sect(fs.g, clust);
        if nsect == 0 { return FR_INT_ERR; }
        nsect := nsect + SectorOf(ofs);
        HereFacts(fs.g, fs.Image(), fs.winsect, Cur(), nsect);
        res := Load(nsect);
        if res == FR_OK {
          HerePosition(fs.g, Cur());
        }
      } else {
        CoreFacts(fs.g, fs.Image(), fs.winsect, Cur());
        KeptSame(fs.g, fs.Image(), chain);
      }
    }

    /** To the cluster of offset `target`: `ofs` bytes of it are left from offset `p`, none if the drive is full. */
    method SeekWalk(target: nat) returns (res: FResult, p: nat, ofs: nat, ghost own: seq<nat>)
      requires Live() && Position(fs.g, Cur()) && 0 < target && (canWrite || target <= objsize)
      modifies fs, this`chain, this`sclust, this`clust
      ensures fs.Valid() && Data() == old(Data()) && Owned(fs.g, old(fs.Image()), fs.Image(), old(chain), own)
      ensures WindowMoved(fs.g, old(fs.winsect), fs.winsect)
      ensures res == FR_OK ==> Live() && own == chain && p + ofs <= target
      ensures res == FR_OK && ofs != 0 ==>
                OnTrack(fs.g, Cur(), p, clust) && ofs <= fs.g.csize * 512 && p + ofs == target
      ensures res == FR_OK && ofs == 0 ==>
                canWrite && FreeCount(fs.Fat()) == 0 && (if chain == [] then p == 0 else Full(fs.g, Cur(), p, clust))
      ensures !canWrite ==> fs.Fat() == old(fs.Fat())
      ensures res != FR_OK ==> res == FR_DISK_ERR && Whole() && chain <= own
    {
      var clst;
      ofs := 0;
      res, p, clst, own := SeekStart(target);
      if res == FR_OK && clst != 0 {
        ghost var v, w, x := fs.Image(), fs.winsect, Cur();
        res, p, clst, ofs, own := SeekLoop(p, clst, target - p);
        OwnedMore(fs.g, old(fs.Image()), v, fs.Image(), old(chain), w, x, own);
      }
    }

    /** The end of the walk where the drive was full. */
    method LandFull(p: nat)
      requires Live() && p < 0x1_0000_0000 && (if chain == [] then p == 0 else Full(fs.g, Cur(), p, clust))
      modifies this`fptr, this`objsize, this`modified
      ensures Whole() && Live() && Position(fs.g, Cur()) && fptr == p && Extended(old(Data()), fptr, Data())
      ensures modified == (old(modified) || p > old(objsize))
    {
      if chain == [] {
        TrackNone(fs.g, fs.Image(), fs.winsect, Cur(), clust);
      } else {
        TrackFull(fs.g, fs.Image(), fs.winsect, Cur(), p, clust);
      }
      Land(p);
      CoreFacts(fs.g, fs.Image(), fs.winsect, Cur());
    }

    /** The walk stopped by a disk error. */
    method Abandon(p: nat)
      requires Whole()
      modifies this`fptr
      ensures Whole() && Data() == old(Data())
    {
      ghost var x := Cur();
      fptr := p;
      IntactAnywhere(fs.g, fs.Image(), fs.winsect, x, Cur());
    }

    method SeekTo(target: nat) returns (res: FResult, ghost own: seq<nat>)
      requires Live() && Position(fs.g, Cur()) && 0 < target < 0x1_0000_0000 && (canWrite || target <= objsize)
      modifies fs, this
      ensures Whole() && Owned(fs.g, old(fs.Image()), fs.Image(), old(chain), own) && err == FR_OK
      ensures WindowMoved(fs.g, old(fs.winsect), fs.winsect)
      ensures chain <= own && Cached(fs.g, own, old(sect), sect)
      ensures res == FR_OK ==>
                && Live() && Position(fs.g, Cur()) && own == chain && Arrived(target)
                && Extended(old(Data()), fptr, Data())
      ensures res == FR_OK ==> modified == (old(modified) || fptr > old(objsize))
      ensures !canWrite ==> fs.Fat() == old(fs.Fat())
      ensures res != FR_OK ==> res == FR_DISK_ERR && old(Data()) <= Data()
    {
      var p, ofs;
      res, p, ofs, own := SeekWalk(target);
      CachedSame(fs.g, own, sect);
      if res == FR_OK {
        ghost var v, w, x := fs.Image(), fs.winsect, Cur();
        if ofs != 0 {
          res := LandInside(p, ofs);
          OwnedMore(fs.g, old(fs.Image()), v, fs.Image(), old(chain), w, x, own);
        } else {
          LandFull(p);
        }
      } else {
        Abandon(p);
      }
    }

    /** Where f_lseek to `target` leaves the cursor: there, or if the drive is full at the end of the chain. */
    ghost predicate Arrived(target: nat)
      requires fs.Valid()
      reads this, fs
    {
      || fptr == target
      || (fptr < target && canWrite && FreeCount(fs.Fat()) == 0
          && (if chain == [] then fptr == 0 else Full(fs.g, Cur(), fptr, clust)))
    }

    /** f_lseek to the start. */
    method Rewind()
      requires Live()
      modifies this`fptr, this`objsize, this`modified
      ensures && Whole() && Live() && Position(fs.g, Cur()) && fptr == 0 && Data() == old(Data())
              && modified == old(modified)
    {
      TrackNone(fs.g, fs.Image(), fs.winsect, Cur(), clust);
      Land(0);
      CoreFacts(fs.g, fs.Image(), fs.winsect, Cur());
    }

    method SeekLive(target: nat) returns (res: FResult, ghost own: seq<nat>)
      requires Valid() && err == FR_OK && target < 0x1_0000_0000 && (canWrite || target <= objsize)
      modifies fs, this
      ensures Valid() && Owned(fs.g, old(fs.Image()), fs.Image(), old(chain), own) && old(Data()) <= Data()
      ensures chain <= own && Cached(fs.g, own, old(sect), sect)
      ensures WindowMoved(fs.g, old(fs.winsect), fs.winsect)
      ensures res == FR_OK || (res == FR_DISK_ERR && err == res)
      ensures res == FR_OK ==> err == FR_OK && own == chain && Extended(old(Data()), fptr, Data()) && Arrived(target)
      ensures res == FR_OK ==> modified == (old(modified) || fptr > old(objsize))
      ensures !canWrite ==> fs.Fat() == old(fs.Fat())
      ensures old(EntryPlaced()) ==> EntryPlaced()
    {
      if target > 0 {
        res, own := SeekTo(target);
        EntryStays(old(fs.Image()), old(Cur()), own);
        if res != FR_OK { Fail(res); }
      } else {
        res, own := FR_OK, chain;
        OwnedSame(fs.g, fs.Image(), chain);
        CachedSame(fs.g, chain, sect);
        CoreFacts(fs.g, fs.Image(), fs.winsect, Cur());
        Rewind();
      }
    }

    /** f_lseek. */
    method Seek(ofs: nat) returns (res: FResult, ghost own: seq<nat>)
      requires Valid() && ofs < 0x1_0000_0000
      modifies fs, this
      ensures Valid() && Owned(fs.g, old(fs.Image()), fs.Image(), old(chain), own) && old(Data()) <= Data()
      ensures chain <= own && Cached(fs.g, own, old(sect), sect)
      ensures WindowMoved(fs.g, old(fs.winsect), fs.winsect)
      ensures if old(err) != FR_OK then res == old(err) && Cur() == old(Cur())
              else res == FR_OK || (res == FR_DISK_ERR && err == res)
      ensures res == FR_OK ==> err == FR_OK && own == chain && Extended(old(Data()), fptr, Data())
      ensures res == FR_OK ==> Arrived(if canWrite then ofs else Min(ofs, old(objsize)))
      ensures res == FR_OK ==> modified == (old(modified) || fptr > old(objsize))
      ensures !canWrite ==> fs.Fat() == old(fs.Fat())
      ensures old(EntryPlaced()) ==> EntryPlaced()
    {
      if err != FR_OK {
        OwnedSame(fs.g, fs.Image(), chain);
        CachedSame(fs.g, chain, sect);
        return err, chain;
      }
      res, own := SeekLive(if ofs > objsize && !canWrite then objsize else ofs);
    }

    // Truncating.

    /** remove_chain, and what it frees when it succeeds. */
    method Remove(clst: nat, pclst: nat, ghost k: nat) returns (res: FResult)
      requires && fs.Valid() && WellFormed(fs.Fat()) && CountOk(fs) && IsCluster(fs.Fat(), clst)
               && Removable(fs.Fat(), clst, pclst)
      requires k <= |chain| && Suffix(fs.Fat(), clst) == chain[k..] && (pclst == 0 || pclst in chain)
      modifies fs
      ensures fs.Valid() && fs.FatOnly() && Kept(fs.g, old(fs.Image()), fs.Image(), chain)
      ensures res == FR_OK ==> CountOk(fs) && WellFormed(fs.Fat())
      ensures res == FR_OK ==> fs.Fat() == FreeAll(Cut(old(fs.Fat()), pclst, EndMarkOf(fs.g.fatType)), chain[k..])
      ensures res != FR_OK ==> res == FR_DISK_ERR
    {
      ghost var v, freed := fs.Image(), 0;
      res, freed := RemoveChain(fs, clst, pclst);
      RemovedKept(fs.g, v, fs.Image(), chain, k, clst, pclst, res);
      if res == FR_OK {
        RemoveKeeps(fs.g, v.table, clst, pclst, fs.Fat());
      }
    }

    /** Frees the clusters behind the one the cursor is in, all of them if it is at the start. */
    method FreeBehind() returns (res: FResult)
      requires Live() && Position(fs.g, Cur()) && fptr < objsize && Needed(fs.g, fptr) <= |chain|
      modifies fs
      ensures fs.Valid() && fs.FatOnly() && Kept(fs.g, old(fs.Image()), fs.Image(), chain)
      ensures res == FR_OK ==> CountOk(fs) && WellFormed(fs.Fat())
      ensures res == FR_OK ==> fs.Fat() == CutOff(old(fs.Fat()), chain, Needed(fs.g, fptr), EndMarkOf(fs.g.fatType))
      ensures res != FR_OK ==> res == FR_DISK_ERR
    {
      ghost var k := Needed(fs.g, fptr);
      CutHere(fs.g, fs.Image(), fs.winsect, Cur());
      if fptr == 0 {
        NeedsChain(fs.g, fs.Image(), fs.winsect, Cur());
        res := Remove(sclust, 0, k);
      } else {
        res := FreeNext(k);
      }
    }

    method FreeNext(ghost k: nat) returns (res: FResult)
      requires Live() && IsCluster(fs.Fat(), clust) && 2 <= fs.Fat()[clust] && WellFormed(fs.Fat())
      requires 0 < k <= |chain| && clust == chain[k - 1]
      requires if fs.Fat()[clust] < |fs.Fat()| then k < |chain| && Suffix(fs.Fat(), fs.Fat()[clust]) == chain[k..]
               else k == |chain|
      modifies fs
      ensures fs.Valid() && fs.FatOnly() && Kept(fs.g, old(fs.Image()), fs.Image(), chain)
      ensures res == FR_OK ==> CountOk(fs) && WellFormed(fs.Fat())
      ensures res == FR_OK ==> fs.Fat() == CutOff(old(fs.Fat()), chain, k, EndMarkOf(fs.g.fatType))
      ensures res != FR_OK ==> res == FR_DISK_ERR
    {
      KeptSame(fs.g, fs.Image(), chain);
      var ncl := Peek(clust);
      fs.ValidIs();
      res := FR_OK;
      if ncl == DISK_ERROR { res := FR_DISK_ERR; }
      if ncl == 1 { res := FR_INT_ERR; }
      if res == FR_OK && ncl < fs.g.nFatent {
        res := Remove(ncl, clust, k);
      }
    }

    /** f_truncate: the file ends at the cursor, and exactly the clusters it no longer needs are free. A disk error
        can keep clusters from being freed, but touches no other file and none of the bytes before the cursor. */
    method Truncate() returns (res: FResult)
      requires Valid()
      modifies fs, this
      ensures Valid() && fptr == old(fptr) && Kept(fs.g, old(fs.Image()), fs.Image(), old(chain))
      ensures sect == old(sect)
      ensures WindowMoved(fs.g, old(fs.winsect), fs.winsect)
      ensures if old(err) != FR_OK then res == old(err) && Cur() == old(Cur()) && fs.Image() == old(fs.Image())
              else if !canWrite then res == FR_DENIED && Cur() == old(Cur()) && fs.Image() == old(fs.Image())
              else (res == FR_OK || (res == FR_DISK_ERR && err == res)) && Data() == Part(old(Data()), 0, fptr)
      ensures res == FR_OK ==> err == FR_OK
      ensures res == FR_OK && fptr < old(objsize) ==>
                modified && Needed(fs.g, fptr) <= |old(chain)| && chain == old(chain)[..Needed(fs.g, fptr)]
      ensures res == FR_OK && fptr < old(objsize) ==>
                fs.Fat() == CutOff(old(fs.Fat()), old(chain), Needed(fs.g, fptr), EndMarkOf(fs.g.fatType))
      ensures old(EntryPlaced()) ==> EntryPlaced()
      ensures old(err) != FR_OK || !canWrite || fptr >= old(objsize) ==> unchanged(this) && unchanged(fs)
    {
      res := err;
      KeptSame(fs.g, fs.Image(), chain);
      if res != FR_OK { return; }
      if !canWrite { return FR_DENIED; }
      CoreFacts(fs.g, fs.Image(), fs.winsect, Cur());
      if fptr < objsize {
        res := TruncateHere();
        CachedSame(fs.g, old(chain), sect);
        EntryStays(old(fs.Image()), old(Cur()), old(chain));
        if res != FR_OK { Fail(res); }
      }
    }

    method TruncateHere() returns (res: FResult)
      requires Live() && Position(fs.g, Cur()) && fptr < objsize
      modifies fs, this`sclust, this`objsize, this`modified, this`dirty, this`chain
      ensures WindowMoved(fs.g, old(fs.winsect), fs.winsect)
      ensures Whole() && (res != FR_OK ==> res == FR_DISK_ERR) && chain <= old(chain)
      ensures Kept(fs.g, old(fs.Image()), fs.Image(), old(chain)) && Data() == Part(old(Data()), 0, fptr)
      ensures res == FR_OK ==> Live() && Position(fs.g, Cur())
      ensures res == FR_OK ==>
                modified && Needed(fs.g, fptr) <= |old(chain)| && chain == old(chain)[..Needed(fs.g, fptr)]
      ensures res == FR_OK ==>
                fs.Fat() == CutOff(old(fs.Fat()), old(chain), Needed(fs.g, fptr), EndMarkOf(fs.g.fatType))
    {
      NeededFits(fs.g, fs.Image(), fs.winsect, Cur());
      res := Shrink();
      Shorten(res == FR_OK);
      if res == FR_OK {
        CoreFacts(fs.g, fs.Image(), fs.winsect, Cur());
      }
    }

    method Shorten(ghost freed: bool)
      requires Needed(fs.g, fptr) <= |chain|
      modifies this`sclust, this`objsize, this`modified, this`chain
      ensures modified && chain == if freed then old(chain)[..Needed(fs.g, fptr)] else old(chain)
      ensures if freed then !dirty ==> Cur() == Shortened(fs.g, old(Cur())) else Cur() == Stopped(old(Cur()))
    {
      chain := if freed then chain[..Needed(fs.g, fptr)] else chain;
      if fptr == 0 { sclust := 0; }
      objsize, modified := fptr, true;
    }

    /** What TruncateHere does on the drive: frees the clusters and writes the dirty sector back, wherever it is. */
    method Shrink() returns (res: FResult)
      requires Live() && Position(fs.g, Cur()) && fptr < objsize && Needed(fs.g, fptr) <= |chain|
      modifies fs, this`dirty
      ensures WindowMoved(fs.g, old(fs.winsect), fs.winsect)
      ensures fs.Valid() && (res != FR_OK ==> res == FR_DISK_ERR) && Kept(fs.g, old(fs.Image()), fs.Image(), chain)
      ensures res == FR_OK ==> CountOk(fs) && !dirty
      ensures res == FR_OK ==>
                Core(fs.g, fs.Image(), fs.winsect, Shortened(fs.g, Cur())) && Position(fs.g, Shortened(fs.g, Cur()))
      ensures res == FR_OK ==> Contents(fs.g, fs.Image(), Shortened(fs.g, Cur())) == Part(old(Data()), 0, fptr)
      ensures res == FR_OK ==> fs.Fat() == CutOff(old(fs.Fat()), chain, Needed(fs.g, fptr), EndMarkOf(fs.g.fatType))
      ensures res != FR_OK ==> Intact(fs.g, fs.Image(), fs.winsect, Stopped(Cur()))
      ensures res != FR_OK ==> Contents(fs.g, fs.Image(), Stopped(Cur())) == Part(old(Data()), 0, fptr)
    {
      ghost var v, w, x, stored := fs.Image(), fs.winsect, Cur(), buf;
      CoreFacts(fs.g, v, w, x);
      IntactFacts(fs.g, v, w, x);
      res := FreeBehind();
      if res == FR_OK && dirty {
        ghost var v' := fs.Image();
        res, stored := FlushAway(w);
        AwayKept(fs.g, v, w, x, v', stored);
      }
      if res == FR_OK {
        MaskedValues(fs.g, 0);
        AfterTruncate(fs.g, v, w, x, EndMarkOf(fs.g.fatType), fs.Image(), fs.winsect);
      } else {
        AfterFailedTruncate(fs.g, v, w, x, fs.Image(), fs.winsect, stored);
      }
    }

    method FlushAway(ghost w: nat) returns (res: FResult, ghost stored: Sector)
      requires && fs.Valid() && dirty && fs.g.database <= sect < fs.g.sectors && sect != w
               && WindowMoved(fs.g, w, fs.winsect)
      modifies fs`disk, this`dirty
      ensures fs.Valid() && Behind(fs.g, sect) < |old(fs.Image()).rest|
      ensures fs.Image() == old(fs.Image()).(rest := old(fs.Image()).rest[Behind(fs.g, sect) := stored])
      ensures if res == FR_OK then !dirty && stored == buf else dirty && res == FR_DISK_ERR
    {
      var ok;
      ok, stored := WriteSector(fs, buf, sect);
      if ok { dirty := false; }
      res := if ok then FR_OK else FR_DISK_ERR;
    }

    // Making the file durable.

    /** The window is where it was, empty, on the directory entry, or on a sector before the FATs. */
    ghost predicate SyncMoved(w: nat, w': nat) {
      w' == w || w' >= fs.g.sectors || w' == dirSect || w' < fs.g.fatbase
    }

    /** Brings the directory entry into the window. */
    method ToEntry() returns (res: FResult)
      requires Valid() && EntryPlaced()
      modifies fs`disk, fs`wflag, fs`mirrorLost, fs`win, fs`winsect
      ensures Valid() && fs.Image() == old(fs.Image()) && Behind(fs.g, dirSect) < |fs.Image().rest|
      ensures res == FR_OK ==> fs.winsect == dirSect && fs.win == fs.Image().rest[Behind(fs.g, dirSect)]
      ensures SyncMoved(old(fs.winsect), fs.winsect)
      ensures res != FR_OK ==> res == FR_DISK_ERR
    {
      ghost var w := fs.winsect;
      PlacedIs(fs.g, fs.Fat(), chain, sect, dirSect);
      res := fs.MoveWindow(dirSect);
      ViewRest(fs.g, fs.Logical(), dirSect, fs.win);
      if res == FR_OK {
        AfterVisit(fs.g, fs.Image(), w, Cur(), dirSect);
      } else {
        AfterPeek(fs.g, fs.Image(), w, Cur(), fs.winsect);
      }
    }

    /** Puts `data` into the window in place of the sector with the directory entry. */
    method PutEntry(data: Sector)
      requires Valid() && EntryPlaced() && fs.winsect == dirSect
      modifies fs`win, fs`wflag
      ensures Valid() && Data() == old(Data()) && Behind(fs.g, dirSect) < |old(fs.Image()).rest|
      ensures fs.Image() == old(fs.Image()).(rest := old(fs.Image()).rest[Behind(fs.g, dirSect) := data])
    {
      ghost var d, v := fs.Logical(), fs.Image();
      PlacedIs(fs.g, fs.Fat(), chain, sect, dirSect);
      ViewRest(fs.g, d, dirSect, data);
      AfterElsewhere(fs.g, v, fs.winsect, Cur(), dirSect, data, v.front);
      fs.ValidIs();
      fs.win := data;
      fs.wflag := true;
      fs.ValidIs();
      assert fs.Logical() == d[dirSect := data];
    }

    /** sync_fs on behalf of the file. */
    method SyncVolume() returns (res: FResult, ghost taken: bool)
      requires Valid() && EntryPlaced()
      modifies fs
      ensures Valid() && Data() == old(Data()) && fs.Fat() == old(fs.Fat()) && fs.Image().rest == old(fs.Image()).rest
      ensures SyncMoved(old(fs.winsect), fs.winsect)
      ensures RecordLeft(fs.g, res == FR_OK, InfoDue(fs.g, fs.useInfo, old(fs.fsiDirty)), taken,
                fs.freeClst, old(fs.Image()).front, fs.Image().front)
      ensures fs.freeClst == old(fs.freeClst)
      ensures res == FR_OK ==> !fs.wflag && fs.Image() == ViewOf(fs.g, fs.disk)
      ensures res != FR_OK ==> res == FR_DISK_ERR
    {
      ghost var v, w := fs.Image(), fs.winsect;
      PlacedIs(fs.g, fs.Fat(), chain, sect, dirSect);
      ViewRest(fs.g, fs.Logical(), dirSect, fs.win);
      res, taken := SyncFs(fs);
      if fs.freeClst < 0x1_0000_0000 { FsInfoCounts(ZERO_SECTOR, fs.freeClst, fs.lastClst); }
      RecordLeftIs(fs.g, res == FR_OK, InfoDue(fs.g, fs.useInfo, old(fs.fsiDirty)), taken,
        fs.freeClst, v.front, fs.Image().front);
      AfterElsewhere(fs.g, v, w, Cur(), dirSect, v.rest[Behind(fs.g, dirSect)], fs.Image().front);
      if fs.winsect != w {
        AfterVisit(fs.g, fs.Image(), w, Cur(), fs.winsect);
      }
    }

    /** f_sync at time `tm`: all there is of the file is on the drive, with its size and first cluster in the
        directory. Stopped by a disk error it has spoiled at most the file's own sector, which is then still dirty, or
        it has written that one back and, if it took the file for saved, brought the entry up to date. */
    method Sync(tm: nat) returns (res: FResult, ghost taken: bool)
      requires Valid() && EntryPlaced()
      modifies fs, this`dirty, this`modified
      ensures && Valid() && EntryPlaced() && Data() == old(Data()) && fs.Fat() == old(fs.Fat())
              && Cur() == old(Cur()).(dirty := dirty)
      ensures res == FR_OK && old(modified) ==> !modified && !fs.wflag && fs.Image() == ViewOf(fs.g, fs.disk)
      ensures SyncMoved(old(fs.winsect), fs.winsect)
      ensures RecordLeft(fs.g, res == FR_OK && old(modified), InfoDue(fs.g, fs.useInfo, old(fs.fsiDirty)), taken,
                fs.freeClst, old(fs.Image()).front, fs.Image().front)
      ensures fs.freeClst == old(fs.freeClst)
      ensures old(modified) ==> Saved(old(fs.Image()).rest, old(Cur()), fs.Image().rest, tm)
      ensures old(modified) && !modified && err == FR_OK ==> EntryTells(old(fs.Image()).rest, fs.Image().rest)
      ensures !old(modified) ==> res == FR_OK && fs.Image() == old(fs.Image()) && Cur() == old(Cur()) && !modified
      ensures res != FR_OK ==> res == FR_DISK_ERR
    {
      res, taken := FR_OK, false;
      RecordSame(fs.g, InfoDue(fs.g, fs.useInfo, fs.fsiDirty), fs.freeClst, fs.Image().front);
      if modified {
        var ok := FlushData();
        if !ok { return FR_DISK_ERR, false; }
        res, taken := SyncEntry(tm);
        SavedTells(old(fs.Image()).rest, old(Cur()), fs.Image().rest, tm);
      }
    }

    /** What f_sync leaves of the sectors behind the FATs. */
    ghost predicate Saved(rest: Disk, x: Cursor, rest': Disk, tm: nat)
      requires fs.Valid() && EntryPlaced()
      reads this, fs
    {
      && |rest'| == |rest| && Behind(fs.g, dirSect) < |rest| && (x.dirty ==> Behind(fs.g, x.sect) < |rest|)
      && if dirty then x.dirty && modified && rest' == rest[Behind(fs.g, x.sect) := rest'[Behind(fs.g, x.sect)]]
         else if modified then rest' == Overlaid(fs.g, rest, x)
         else rest' == Overlaid(fs.g, rest, x)[Behind(fs.g, dirSect) :=
                   Updated(rest[Behind(fs.g, dirSect)], dirOfs, fs.g.fatType, sclust, objsize, tm)]
    }

    ghost predicate EntryTells(rest: Disk, rest': Disk)
      reads this, fs
    {
      var b := Behind(fs.g, dirSect);
      b < |rest| && b < |rest'| && Tells(rest[b], rest'[b], dirOfs, fs.g.fatType, sclust, objsize)
    }

    lemma SavedTells(rest: Disk, x: Cursor, rest': Disk, tm: nat)
      requires Valid() && EntryPlaced() && Saved(rest, x, rest', tm)
      ensures !modified && err == FR_OK ==> EntryTells(rest, rest')
    {
      if !modified && err == FR_OK {
        FirstInTable(fs.g, fs.Image(), fs.winsect, Cur());
        IntactFacts(fs.g, fs.Image(), fs.winsect, Cur());
        UpdatedIs(fs.g, rest[Behind(fs.g, dirSect)], dirOfs, sclust, objsize, tm);
      }
    }

    method SyncEntry(tm: nat) returns (res: FResult, ghost taken: bool)
      requires Valid() && EntryPlaced() && modified
      modifies fs, this`modified
      ensures Valid() && EntryPlaced() && Data() == old(Data()) && fs.Fat() == old(fs.Fat())
      ensures SyncMoved(old(fs.winsect), fs.winsect) && fs.freeClst == old(fs.freeClst)
      ensures RecordLeft(fs.g, res == FR_OK, InfoDue(fs.g, fs.useInfo, old(fs.fsiDirty)), taken, fs.freeClst,
                old(fs.Image()).front, fs.Image().front)
      ensures res == FR_OK ==> !modified && !fs.wflag && fs.Image() == ViewOf(fs.g, fs.disk)
      ensures var b, r := Behind(fs.g, dirSect), old(fs.Image()).rest;
              b < |r| && fs.Image().rest ==
                if modified then r else r[b := Updated(r[b], dirOfs, fs.g.fatType, sclust, objsize, tm)]
      ensures res != FR_OK ==> res == FR_DISK_ERR
    {
      taken := false;
      RecordSame(fs.g, InfoDue(fs.g, fs.useInfo, fs.fsiDirty), fs.freeClst, fs.Image().front);
      res := ToEntry();
      if res == FR_OK {
        res, taken := SaveEntry(Updated(fs.win, dirOfs, fs.g.fatType, sclust, objsize, tm));
        Untouch();
      }
    }

    /** The entry put into the window, and all written out. */
    method SaveEntry(data: Sector) returns (res: FResult, ghost taken: bool)
      requires Valid() && EntryPlaced() && fs.winsect == dirSect
      modifies fs
      ensures Valid() && EntryPlaced() && Data() == old(Data()) && fs.Fat() == old(fs.Fat())
      ensures Behind(fs.g, dirSect) < |old(fs.Image()).rest|
      ensures fs.Image().rest == old(fs.Image()).rest[Behind(fs.g, dirSect) := data]
      ensures SyncMoved(old(fs.winsect), fs.winsect) && fs.freeClst == old(fs.freeClst)
      ensures RecordLeft(fs.g, res == FR_OK, InfoDue(fs.g, fs.useInfo, old(fs.fsiDirty)), taken, fs.freeClst,
                old(fs.Image()).front, fs.Image().front)
      ensures res == FR_OK ==> !fs.wflag && fs.Image() == ViewOf(fs.g, fs.disk)
      ensures res != FR_OK ==> res == FR_DISK_ERR
    {
      PutEntry(data);
      res, taken := SyncVolume();
    }

    /** WriteBack, told in full. */
    method FlushData() returns (ok: bool)
      requires Valid() && EntryPlaced()
      modifies fs`disk, this`dirty
      ensures && Valid() && Data() == old(Data()) && fs.Fat() == old(fs.Fat()) && Cur() == old(Cur()).(dirty := !ok)
              && EntryPlaced()
      ensures FlushedApart(old(fs.Image()).rest, old(Cur()), fs.Image().rest)
      ensures fs.winsect == old(fs.winsect) && fs.Image().front == old(fs.Image()).front
      ensures if ok then fs.Image().rest == Overlaid(fs.g, old(fs.Image()).rest, old(Cur()))
              else old(dirty) && fs.Image().rest ==
                     old(fs.Image()).rest[Behind(fs.g, sect) := fs.Image().rest[Behind(fs.g, sect)]]
    {
      ok := true;
      ghost var stored := buf;
      PlacedIs(fs.g, fs.Fat(), chain, sect, dirSect);
      ViewRest(fs.g, fs.Logical(), dirSect, fs.win);
      if dirty {
        ok, stored := FlushDirty();
      }
    }

    method FlushDirty() returns (ok: bool, ghost stored: Sector)
      requires Valid() && dirty
      modifies fs`disk, this`dirty
      ensures Valid() && Data() == old(Data()) && fs.Fat() == old(fs.Fat()) && Cur() == old(Cur()).(dirty := !ok)
      ensures RestBase(fs.g) <= sect && Behind(fs.g, sect) < |old(fs.Image()).rest| && (ok ==> stored == buf)
      ensures fs.Image() == old(fs.Image()).(rest := old(fs.Image()).rest[Behind(fs.g, sect) := stored])
    {
      ghost var v := fs.Image();
      IntactFacts(fs.g, v, fs.winsect, Cur());
      ok, stored := WriteSector(fs, buf, sect);
      AfterWriteBack(fs.g, v, fs.winsect, Cur(), ok, stored);
      if err == FR_OK { PositionDirty(fs.g, Cur(), Cur().(dirty := !ok)); }
      dirty := !ok;
    }

    /** Writing the dirty sector back does not touch the sector with the directory entry. */
    ghost predicate FlushedApart(rest: Disk, x: Cursor, rest': Disk)
      reads this, fs
    {
      var b := Behind(fs.g, dirSect);
      |rest'| == |rest| && b < |rest| && rest'[b] == rest[b] && (x.dirty ==> Behind(fs.g, x.sect) < |rest|)
    }
  }

  /** Whole sectors of a file lie behind the FATs and away from the window. */
  lemma DirectBounds(g: VolumeGeometry, v: View, w: nat, x: Cursor, s: nat, cc: nat)
    requires Core(g, v, w, x) && Here(g, x, s) && ByteIn(x.fptr) == 0
    requires 0 < cc && SectorIn(g.csize, SectorOf(x.fptr)) + cc <= g.csize && x.fptr + 512 * cc <= x.objsize
    ensures g.database <= s && s + cc <= g.sectors < 0x1_0000_0000 && !(s <= w < s + cc)
    ensures x.dirty ==> x.sect < 0x1_0000_0000
  {
    DirectReadIs(g, v, w, x, s, cc);
  }

  /** Read past the cache, with the dirty sector put over them, they are a part of the file. */
  lemma FetchedIs(g: VolumeGeometry, v: View, w: nat, x: Cursor, s: nat, cc: nat, data: seq<byte>)
    requires Core(g, v, w, x) && Here(g, x, s) && ByteIn(x.fptr) == 0
    requires 0 < cc && SectorIn(g.csize, SectorOf(x.fptr)) + cc <= g.csize && x.fptr + 512 * cc <= x.objsize
    requires g.database <= s && s + cc <= g.sectors && Behind(g, s) + cc <= |v.rest|
    requires x.dirty ==> x.sect < 0x1_0000_0000
    requires var run := Flat(v.rest[Behind(g, s)..Behind(g, s) + cc]);
             data == if x.dirty then Patched(run, x.sect, s, cc, x.buf) else run
    ensures data == Part(Contents(g, v, x), x.fptr, x.fptr + 512 * cc)
  {
    DirectReadIs(g, v, w, x, s, cc);
  }

  /** The source's unsigned test for "the cursor would go past 4 GiB - 1". */
  lemma ClipTest(p: nat, n: nat)
    requires p < 0x1_0000_0000 && n < 0x1_0000_0000
    ensures (p + n) % 0x1_0000_0000 < p <==> p + n >= 0x1_0000_0000
  {
  }

  /** The bytes from `p` up to `q`. */
  function Part(b: seq<byte>, p: nat, q: nat): (r: seq<byte>)
    ensures p <= q <= |b| ==> r == b[p..q]
  {
    PartAfter(b, p, q, |b|)
  }

  function PartAfter(b: seq<byte>, p: nat, q: nat, countdown: nat): (r: seq<byte>)
    ensures p <= q <= |b| ==> r == b[p..q]
    ensures p == q ==> r == []
  {
    if countdown > 0 then PartAfter(b, p, q, countdown - 1) else if p <= q <= |b| then b[p..q] else []
  }

  lemma PartEmpty(b: seq<byte>, p: nat)
    ensures Part(b, p, p) == []
  {
  }

  lemma PartJoin(b: seq<byte>, p: nat, q: nat, r: nat)
    requires p <= q <= r <= |b|
    ensures Part(b, p, r) == Part(b, p, q) + Part(b, q, r)
  {
  }

  function Left(n: nat, p: nat): nat {
    if p < n then n - p else 0
  }
}
