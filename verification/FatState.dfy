/** The state of an open file as its operations use it: the facts of FatCursor behind names that a proof opens only by
    calling the lemmas here. Each countdown below serves that purpose alone. */
module FatState {
  import opened FatBytes
  import opened FatTable
  import opened FatVolume
  import opened FatChain
  import opened FatAlloc
  import opened FatLayout
  import opened FatCursor
  import opened FatApart

  /** The volume and the file's own fields fit together; `w` is the sector in the volume's window. */
  ghost predicate Intact(g: VolumeGeometry, v: View, w: nat, x: Cursor) {
    IntactAfter(g, v, w, x, |v.rest|)
  }

  ghost predicate IntactAfter(g: VolumeGeometry, v: View, w: nat, x: Cursor, countdown: nat) {
    if countdown > 0 then IntactAfter(g, v, w, x, countdown - 1) else IntactOpen(g, v.rest, w, x)
  }

  /** All is well, apart from the current cluster and sector. */
  ghost predicate Core(g: VolumeGeometry, v: View, w: nat, x: Cursor) {
    CoreAfter(g, v, w, x, |v.rest|)
  }

  ghost predicate CoreAfter(g: VolumeGeometry, v: View, w: nat, x: Cursor, countdown: nat) {
    if countdown > 0 then CoreAfter(g, v, w, x, countdown - 1) else CoreOpen(g, v.rest, v.table, w, x)
  }

  /** The current cluster and sector are those of the cursor. */
  ghost predicate Position(g: VolumeGeometry, x: Cursor) {
    PositionAfter(g, x, x.fptr)
  }

  ghost predicate PositionAfter(g: VolumeGeometry, x: Cursor, countdown: nat) {
    if countdown > 0 then PositionAfter(g, x, countdown - 1) else Proper(g, x.chain) && PositionOpen(g, x)
  }

  /** The current cluster holds the byte at the cursor, and `s` is its sector. */
  ghost predicate Here(g: VolumeGeometry, x: Cursor, s: nat) {
    HereAfter(g, x, s, x.fptr)
  }

  ghost predicate HereAfter(g: VolumeGeometry, x: Cursor, s: nat, countdown: nat) {
    if countdown > 0 then HereAfter(g, x, s, countdown - 1)
    else Proper(g, x.chain) && AtOpen(g, x) && s == SectorNo(g, x.chain, SectorOf(x.fptr))
  }

  /** The file as a byte array. */
  ghost function Contents(g: VolumeGeometry, v: View, x: Cursor): seq<byte> {
    ContentsAfter(g, v, x, |v.rest|)
  }

  ghost function ContentsAfter(g: VolumeGeometry, v: View, x: Cursor, countdown: nat): seq<byte> {
    if countdown > 0 then ContentsAfter(g, v, x, countdown - 1)
    else if |v.rest| == g.sectors - RestBase(g) && Proper(g, x.chain) && Covers(g, x.chain, x.objsize)
            && (x.dirty ==> Behind(g, x.sect) < |v.rest|)
      then Bytes(g, Overlaid(g, v.rest, x), x.chain, x.objsize)
      else []
  }

  lemma {:induction false} IntactAfterIs(g: VolumeGeometry, v: View, w: nat, x: Cursor, countdown: nat)
    ensures IntactAfter(g, v, w, x, countdown) <==> IntactOpen(g, v.rest, w, x)
  {
    if countdown > 0 {
      IntactAfterIs(g, v, w, x, countdown - 1);
    }
  }

  lemma {:induction false} CoreAfterIs(g: VolumeGeometry, v: View, w: nat, x: Cursor, countdown: nat)
    ensures CoreAfter(g, v, w, x, countdown) <==> CoreOpen(g, v.rest, v.table, w, x)
  {
    if countdown > 0 {
      CoreAfterIs(g, v, w, x, countdown - 1);
    }
  }

  lemma {:induction false} PositionAfterIs(g: VolumeGeometry, x: Cursor, countdown: nat)
    ensures PositionAfter(g, x, countdown) <==> Proper(g, x.chain) && PositionOpen(g, x)
  {
    if countdown > 0 {
      PositionAfterIs(g, x, countdown - 1);
    }
  }

  lemma {:induction false} HereAfterIs(g: VolumeGeometry, x: Cursor, s: nat, countdown: nat)
    ensures HereAfter(g, x, s, countdown) <==>
              Proper(g, x.chain) && AtOpen(g, x) && s == SectorNo(g, x.chain, SectorOf(x.fptr))
  {
    if countdown > 0 {
      HereAfterIs(g, x, s, countdown - 1);
    }
  }

  lemma {:induction false} ContentsAfterIs(g: VolumeGeometry, v: View, w: nat, x: Cursor, countdown: nat)
    requires IntactOpen(g, v.rest, w, x)
    ensures ContentsAfter(g, v, x, countdown) == ContentsOpen(g, v.rest, w, x)
  {
    if countdown > 0 {
      ContentsAfterIs(g, v, w, x, countdown - 1);
    }
  }

  lemma IntactIs(g: VolumeGeometry, v: View, w: nat, x: Cursor)
    ensures Intact(g, v, w, x) <==> IntactOpen(g, v.rest, w, x)
    ensures Intact(g, v, w, x) ==> Contents(g, v, x) == ContentsOpen(g, v.rest, w, x)
  {
    IntactAfterIs(g, v, w, x, |v.rest|);
    if IntactOpen(g, v.rest, w, x) {
      ContentsAfterIs(g, v, w, x, |v.rest|);
    }
  }

  lemma CoreIs(g: VolumeGeometry, v: View, w: nat, x: Cursor)
    ensures Core(g, v, w, x) <==> CoreOpen(g, v.rest, v.table, w, x)
    ensures Core(g, v, w, x) ==> Intact(g, v, w, x) && Contents(g, v, x) == ContentsOpen(g, v.rest, w, x)
  {
    CoreAfterIs(g, v, w, x, |v.rest|);
    IntactIs(g, v, w, x);
  }

  lemma PositionIs(g: VolumeGeometry, x: Cursor)
    ensures Position(g, x) <==> Proper(g, x.chain) && PositionOpen(g, x)
  {
    PositionAfterIs(g, x, x.fptr);
  }

  lemma HereIs(g: VolumeGeometry, x: Cursor, s: nat)
    ensures Here(g, x, s) <==> Proper(g, x.chain) && AtOpen(g, x) && s == SectorNo(g, x.chain, SectorOf(x.fptr))
  {
    HereAfterIs(g, x, s, x.fptr);
  }

  // What can be read off the names.

  lemma IntactFacts(g: VolumeGeometry, v: View, w: nat, x: Cursor)
    requires Intact(g, v, w, x)
    ensures |Contents(g, v, x)| == x.objsize < 0x1_0000_0000
    ensures x.dirty ==> g.database <= x.sect < g.sectors && x.sect != w
  {
    IntactIs(g, v, w, x);
  }

  lemma CoreFacts(g: VolumeGeometry, v: View, w: nat, x: Cursor)
    requires Core(g, v, w, x)
    ensures Intact(g, v, w, x) && x.fptr <= x.objsize == |Contents(g, v, x)|
    ensures |v.table| == g.nFatent && WellFormed(v.table) && (x.sclust == 0 <==> x.chain == [])
  {
    CoreIs(g, v, w, x);
    RootedIs(g, v.table, w, x.sclust, x.chain);
  }

  lemma FirstInTable(g: VolumeGeometry, v: View, w: nat, x: Cursor)
    requires Core(g, v, w, x)
    ensures x.sclust < g.nFatent
  {
    CoreIs(g, v, w, x);
    RootedIs(g, v.table, w, x.sclust, x.chain);
  }

  lemma HereFacts(g: VolumeGeometry, v: View, w: nat, x: Cursor, s: nat)
    requires Core(g, v, w, x) && Here(g, x, s)
    ensures g.database <= s < g.sectors && s != w
  {
    CoreIs(g, v, w, x);
    HereIs(g, x, s);
  }

  // Each change of the fields, and what it means.

  lemma AfterPeek(g: VolumeGeometry, v: View, w: nat, x: Cursor, w': nat)
    requires Intact(g, v, w, x) && WindowMoved(g, w, w')
    ensures Intact(g, v, w', x) && (Core(g, v, w, x) ==> Core(g, v, w', x))
  {
    IntactIs(g, v, w, x);
    IntactIs(g, v, w', x);
    CoreIs(g, v, w, x);
    CoreIs(g, v, w', x);
    WindowAway(g, v.rest, v.table, w, x, w');
  }

  lemma AfterWriteBack(g: VolumeGeometry, v: View, w: nat, x: Cursor, ok: bool, stored: Sector)
    requires Intact(g, v, w, x) && x.dirty && (ok ==> stored == x.buf)
    ensures Behind(g, x.sect) < |v.rest|
    ensures var v', x' := v.(rest := v.rest[Behind(g, x.sect) := stored]), x.(dirty := !ok);
            && Intact(g, v', w, x') && Contents(g, v', x') == Contents(g, v, x) && Kept(g, v, v', x.chain)
            && (Core(g, v, w, x) ==> Core(g, v', w, x'))
  {
    IntactIs(g, v, w, x);
    DataBehind(g, x.sect);
    var v', x' := v.(rest := v.rest[Behind(g, x.sect) := stored]), x.(dirty := !ok);
    IntactIs(g, v', w, x');
    KeptSector(g, v, x.chain, x.sect, stored);
    CoreIs(g, v, w, x);
    CoreIs(g, v', w, x');
    if ok {
      WrittenBack(g, v.rest, v.table, w, x);
    } else {
      WriteBackFailed(g, v.rest, w, x, stored);
    }
  }

  lemma AfterRefill(g: VolumeGeometry, v: View, w: nat, x: Cursor, s: nat, data: Sector)
    requires Core(g, v, w, x) && !x.dirty && g.database <= s < g.sectors && Behind(g, s) < |v.rest|
    ensures var x' := x.(buf := data); Intact(g, v, w, x') && Contents(g, v, x') == Contents(g, v, x)
    ensures data == v.rest[Behind(g, s)] ==>
              var x' := x.(buf := data, sect := s); Core(g, v, w, x') && Contents(g, v, x') == Contents(g, v, x)
  {
    CoreIs(g, v, w, x);
    IntactIs(g, v, w, x.(buf := data));
    CoreIs(g, v, w, x.(buf := data, sect := s));
    Refilled(g, v.rest, v.table, w, x, s);
  }

  lemma AfterMove(g: VolumeGeometry, v: View, w: nat, x: Cursor, c: nat)
    requires Core(g, v, w, x)
    ensures Core(g, v, w, x.(clust := c)) && Contents(g, v, x.(clust := c)) == Contents(g, v, x)
  {
    CoreIs(g, v, w, x);
    CoreIs(g, v, w, x.(clust := c));
  }

  /** Neither the cached bytes nor whether they are dirty matters to the position. */
  lemma PositionDirty(g: VolumeGeometry, x: Cursor, x': Cursor)
    requires Position(g, x) && x' == x.(dirty := x'.dirty)
    ensures Position(g, x')
  {
    PositionIs(g, x);
    PositionIs(g, x');
  }

  /** The window visits sector `w'`, which is not one of the file's and not free. */
  lemma AfterVisit(g: VolumeGeometry, v: View, w: nat, x: Cursor, w': nat)
    requires Intact(g, v, w, x) && !InChain(g, x.chain, w') && WindowInUse(g, v.table, w')
    ensures Intact(g, v, w', x) && (Core(g, v, w, x) ==> Core(g, v, w', x))
  {
    IntactIs(g, v, w, x);
    IntactIs(g, v, w', x);
    CoreIs(g, v, w, x);
    CoreIs(g, v, w', x);
    RootedIs(g, v.table, w, x.sclust, x.chain);
    RootedIs(g, v.table, w', x.sclust, x.chain);
  }

  /** Something changes that is not the file's: a sector behind the FATs outside its chain, or one before them. */
  lemma AfterElsewhere(g: VolumeGeometry, v: View, w: nat, x: Cursor, s: nat, data: Sector, front: Disk)
    requires && Intact(g, v, w, x) && RestBase(g) <= s < g.sectors && !InChain(g, x.chain, s) && x.sect != s
             && Behind(g, s) < |v.rest|
    ensures var v' := v.(rest := v.rest[Behind(g, s) := data]);
            Intact(g, v', w, x) && (Core(g, v, w, x) ==> Core(g, v', w, x)) && Contents(g, v', x) == Contents(g, v, x)
    ensures var v' := v.(front := front);
            Intact(g, v', w, x) && (Core(g, v, w, x) ==> Core(g, v', w, x)) && Contents(g, v', x) == Contents(g, v, x)
  {
    var v', v'' := v.(rest := v.rest[Behind(g, s) := data]), v.(front := front);
    IntactIs(g, v, w, x);
    IntactIs(g, v', w, x);
    IntactIs(g, v'', w, x);
    CoreIs(g, v, w, x);
    CoreIs(g, v', w, x);
    CoreIs(g, v'', w, x);
    BytesElsewhere(g, v.rest, x, s, data);
  }

  lemma BytesElsewhere(g: VolumeGeometry, rest: Disk, x: Cursor, s: nat, data: Sector)
    requires |rest| == g.sectors - RestBase(g) && Proper(g, x.chain) && Covers(g, x.chain, x.objsize)
    requires && RestBase(g) <= s < g.sectors && !InChain(g, x.chain, s) && x.sect != s
             && (x.dirty ==> InChain(g, x.chain, x.sect))
    ensures Behind(g, s) < |rest| && (x.dirty ==> Behind(g, x.sect) < |rest|)
    ensures Bytes(g, Overlaid(g, rest[Behind(g, s) := data], x), x.chain, x.objsize) ==
              Bytes(g, Overlaid(g, rest, x), x.chain, x.objsize)
  {
    if x.dirty {
      DataBehind(g, x.sect);
    }
    var r, r' := Overlaid(g, rest, x), Overlaid(g, rest[Behind(g, s) := data], x);
    var b, b' := Bytes(g, r, x.chain, x.objsize), Bytes(g, r', x.chain, x.objsize);
    forall i | 0 <= i < x.objsize ensures b'[i] == b[i] {
      BytesAt(g, r, x.chain, x.objsize, i);
      BytesAt(g, r', x.chain, x.objsize, i);
      LbaCluster(g, x.chain, SectorOf(i));
    }
  }

  // Getting to the cursor.

  lemma OffBoundary(g: VolumeGeometry, x: Cursor)
    requires Position(g, x) && ByteIn(x.fptr) != 0
    ensures Here(g, x, x.sect)
  {
    PositionIs(g, x);
    HereIs(g, x, x.sect);
    SameCluster(g, x);
  }

  /** `c` is the cluster of the byte at the cursor. */
  ghost predicate IsNext(g: VolumeGeometry, x: Cursor, c: nat) {
    ClusterOf(g, x.fptr) < |x.chain| && c == x.chain[ClusterOf(g, x.fptr)]
  }

  lemma InsideCluster(g: VolumeGeometry, x: Cursor)
    requires Position(g, x) && ByteIn(x.fptr) == 0 && SectorIn(g.csize, SectorOf(x.fptr)) != 0
    ensures IsNext(g, x, x.clust)
  {
    PositionIs(g, x);
    SameCluster(g, x);
  }

  /** On a cluster boundary: where to look for the next cluster, and what is there. */
  lemma AtBoundary(g: VolumeGeometry, v: View, w: nat, x: Cursor)
    requires Core(g, v, w, x) && Position(g, x) && AtStart(g, x.fptr)
    ensures x.fptr == 0 ==> if x.sclust == 0 then x.chain == [] else IsNext(g, x, x.sclust) && x.sclust >= 2
    ensures x.fptr == 0 ==> ClusterOf(g, x.fptr) == 0
    ensures x.fptr > 0 ==>
              && Stretchable(v.table, x.chain, x.clust) && x.clust != 0
              && (if v.table[x.clust] < |v.table| then IsNext(g, x, v.table[x.clust])
                  else ClusterOf(g, x.fptr) == |x.chain|)
  {
    CoreIs(g, v, w, x);
    PositionIs(g, x);
    NextCluster(g, v.rest, v.table, w, x);
    RootedIs(g, v.table, w, x.sclust, x.chain);
    if ClusterOf(g, x.fptr) < |x.chain| {
      ProperAt(g, x.chain, ClusterOf(g, x.fptr));
    }
    if x.fptr == 0 {
      IndexByte(0);
    }
  }

  lemma InsideFile(g: VolumeGeometry, v: View, w: nat, x: Cursor)
    requires Core(g, v, w, x) && x.fptr < x.objsize
    ensures ClusterOf(g, x.fptr) < |x.chain|
  {
    CoreIs(g, v, w, x);
    CursorInside(g, v.rest, w, x);
  }

  lemma ViewRest(g: VolumeGeometry, d: Disk, s: nat, data: Sector)
    requires |d| == g.sectors && RestBase(g) <= s < g.sectors
    ensures |ViewOf(g, d).rest| == g.sectors - RestBase(g) && Behind(g, s) < g.sectors - RestBase(g)
    ensures ViewOf(g, d).rest[Behind(g, s)] == d[s]
    ensures ViewOf(g, d[s := data]) == ViewOf(g, d).(rest := ViewOf(g, d).rest[Behind(g, s) := data])
  {
    var d' := d[s := data];
    ViewIs(g, d);
    ViewIs(g, d');
    SameSlice(d, d', 0, g.fatbase);
    SameSlice(d, d', g.fatbase, g.fatbase + g.fsize);
    assert d'[RestBase(g)..] == d[RestBase(g)..][Behind(g, s) := data];
  }

  /** clst2sect: the first sector of a cluster, 0 for a number that is none. */
  function Clst2Sect(g: VolumeGeometry, clst: nat): nat {
    if Sub32(clst, 2) >= g.nFatent - 2 then 0 else g.database + g.csize * Sub32(clst, 2)
  }

  lemma FirstSector(g: VolumeGeometry, c: nat)
    requires 2 <= c < g.nFatent
    ensures Clst2Sect(g, c) == ClusterBase(g, c) > 0
  {
    ClusterBaseIs(g, c);
    ClusterFits(g, c);
  }

  lemma SectorFound(g: VolumeGeometry, v: View, w: nat, x: Cursor)
    requires Core(g, v, w, x) && IsNext(g, x, x.clust)
    ensures Clst2Sect(g, x.clust) > 0
    ensures Here(g, x, Clst2Sect(g, x.clust) + SectorIn(g.csize, SectorOf(x.fptr)))
  {
    CoreIs(g, v, w, x);
    HereIs(g, x, Clst2Sect(g, x.clust) + SectorIn(g.csize, SectorOf(x.fptr)));
    ProperAt(g, x.chain, ClusterOf(g, x.fptr));
    FirstSector(g, x.clust);
    ClusterFits(g, x.clust);
  }

  /** A sector taken into the cache is the cached one. */
  lemma HereCached(g: VolumeGeometry, x: Cursor, s: nat, x': Cursor)
    requires Here(g, x, s) && x' == x.(sect := x'.sect, buf := x'.buf, dirty := x'.dirty)
    ensures Here(g, x', s)
  {
    HereIs(g, x, s);
    HereIs(g, x', s);
  }

  /** The sector at the cursor may be cached. */
  lemma CachedHere(g: VolumeGeometry, x: Cursor, s: nat, sect: nat)
    requires Here(g, x, s)
    ensures Cached(g, x.chain, sect, s)
  {
    HereIs(g, x, s);
    CachedIs(g, x.chain, sect, s);
  }

  // Reading.

  lemma CachedRead(g: VolumeGeometry, v: View, w: nat, x: Cursor, n: nat)
    requires Core(g, v, w, x) && Here(g, x, x.sect) && 0 < n && ByteIn(x.fptr) + n <= 512 && x.fptr + n <= x.objsize
    ensures && x.objsize == |Contents(g, v, x)|
            && Contents(g, v, x)[x.fptr..x.fptr + n] == x.buf[ByteIn(x.fptr)..ByteIn(x.fptr) + n]
    ensures var x' := x.(fptr := x.fptr + n);
            Core(g, v, w, x') && Position(g, x') && Contents(g, v, x') == Contents(g, v, x)
  {
    CoreIs(g, v, w, x);
    HereIs(g, x, x.sect);
    var x' := x.(fptr := x.fptr + n);
    CoreIs(g, v, w, x');
    PositionIs(g, x');
    FromCache(g, v.rest, v.table, w, x, n);
    Advance(g, x, n);
  }

  /** The source's unsigned test for "among the `cc` sectors from `s` on". */
  lemma UnsignedTest(sect: nat, s: nat, cc: nat)
    requires sect < 0x1_0000_0000 && s + cc < 0x1_0000_0000
    ensures Sub32(sect, s) < cc <==> s <= sect < s + cc
  {
  }
  /** The sectors from the cursor on to the end of its cluster are not in the window. */
  lemma RunAway(g: VolumeGeometry, rest: Disk, w: nat, x: Cursor, cc: nat)
    requires IntactOpen(g, rest, w, x) && AtOpen(g, x) && 0 < cc && SectorIn(g.csize, SectorOf(x.fptr)) + cc <= g.csize
    ensures var s := SectorNo(g, x.chain, SectorOf(x.fptr)); s + cc <= g.sectors && !(s <= w < s + cc)
  {
    RunFits(g, x, cc);
    var s := SectorNo(g, x.chain, SectorOf(x.fptr));
    if s <= w < s + cc {
      RunInChain(g, x.chain, SectorOf(x.fptr), cc, w);
    }
  }

  lemma RunInChain(g: VolumeGeometry, chain: seq<nat>, j: nat, cc: nat, s: nat)
    requires Proper(g, chain) && HasSector(g, chain, j) && SectorIn(g.csize, j) + cc <= g.csize
    requires SectorNo(g, chain, j) <= s < SectorNo(g, chain, j) + cc
    ensures InChain(g, chain, s)
  {
    LbaRun(g, chain, j, s - SectorNo(g, chain, j));
    LbaCluster(g, chain, j + (s - SectorNo(g, chain, j)));
  }

  function Min(a: nat, b: nat): nat {
    if a < b then a else b
  }

  /** Sectors from `s` on, with `buf` over the one that is sector `sect`, if it is among them. */
  function Patched(data: seq<byte>, sect: nat, s: nat, cc: nat, buf: Sector): (r: seq<byte>)
    requires |data| == 512 * cc && sect < 0x1_0000_0000 && s + cc < 0x1_0000_0000
    ensures |r| == |data|
  {
    UnsignedTest(sect, s, cc);
    if Sub32(sect, s) < cc then data[..(sect - s) * 512] + buf + data[(sect - s) * 512 + 512..] else data
  }

  lemma PatchedIs(g: VolumeGeometry, rest: Disk, x: Cursor, s: nat, cc: nat)
    requires && |rest| == g.sectors - RestBase(g) && g.database <= s < g.sectors && s + cc <= g.sectors
             && (x.dirty ==> InChain(g, x.chain, x.sect))
    ensures Behind(g, s) + cc <= |rest| && (x.dirty ==> Behind(g, x.sect) < |rest| && x.sect < 0x1_0000_0000)
    ensures var data := Flat(rest[Behind(g, s)..Behind(g, s) + cc]);
            (if x.dirty then Patched(data, x.sect, s, cc, x.buf) else data) ==
              Flat(Overlaid(g, rest, x)[Behind(g, s)..Behind(g, s) + cc])
  {
    DataBehind(g, s);
    if x.dirty {
      DataBehind(g, x.sect);
      UnsignedTest(x.sect, s, cc);
      if s <= x.sect < s + cc {
        OverlaidRun(rest, Behind(g, s), cc, Behind(g, x.sect), x.buf);
      } else {
        NotOverlaid(rest, Behind(g, s), cc, Behind(g, x.sect), x.buf);
      }
    }
  }

  lemma DirectRead(g: VolumeGeometry, rest: Disk, f: seq<nat>, w: nat, x: Cursor, s: nat, cc: nat)
    requires && CoreOpen(g, rest, f, w, x) && AtOpen(g, x) && s == SectorNo(g, x.chain, SectorOf(x.fptr))
             && ByteIn(x.fptr) == 0
    requires 0 < cc && SectorIn(g.csize, SectorOf(x.fptr)) + cc <= g.csize && x.fptr + 512 * cc <= x.objsize
    ensures s + cc <= g.sectors && !(s <= w < s + cc)
    ensures Behind(g, s) + cc <= |rest| && (x.dirty ==> x.sect < 0x1_0000_0000)
    ensures var data := Flat(rest[Behind(g, s)..Behind(g, s) + cc]);
            (if x.dirty then Patched(data, x.sect, s, cc, x.buf) else data) ==
              ContentsOpen(g, rest, w, x)[x.fptr..x.fptr + 512 * cc]
  {
    RunAway(g, rest, w, x, cc);
    FromDrive(g, rest, f, w, x, cc);
    PatchedIs(g, rest, x, s, cc);
  }

  /** Whole sectors read at the cursor, with the dirty one over them, are what the file holds there. */
  lemma DirectReadIs(g: VolumeGeometry, v: View, w: nat, x: Cursor, s: nat, cc: nat)
    requires Core(g, v, w, x) && Here(g, x, s) && ByteIn(x.fptr) == 0
    requires 0 < cc && SectorIn(g.csize, SectorOf(x.fptr)) + cc <= g.csize && x.fptr + 512 * cc <= x.objsize
    ensures g.database <= s && s + cc <= g.sectors && !(s <= w < s + cc) && Behind(g, s) + cc <= |v.rest|
    ensures x.objsize == |Contents(g, v, x)| && (x.dirty ==> x.sect < 0x1_0000_0000)
    ensures var data := Flat(v.rest[Behind(g, s)..Behind(g, s) + cc]);
            (if x.dirty then Patched(data, x.sect, s, cc, x.buf) else data) ==
              Contents(g, v, x)[x.fptr..x.fptr + 512 * cc]
  {
    CoreIs(g, v, w, x);
    HereIs(g, x, s);
    DirectRead(g, v.rest, v.table, w, x, s, cc);
  }

  /** The sectors from the cursor on to the end of its cluster are on the drive and not in the window. */
  lemma RunApart(g: VolumeGeometry, v: View, w: nat, x: Cursor, s: nat, cc: nat)
    requires Core(g, v, w, x) && Here(g, x, s) && 0 < cc && SectorIn(g.csize, SectorOf(x.fptr)) + cc <= g.csize
    ensures g.database <= s && s + cc <= g.sectors && !(s <= w < s + cc)
    ensures x.sect < g.sectors || x.dirty
    ensures x.sect < g.sectors && (Sub32(x.sect, s) < cc <==> s <= x.sect < s + cc)
  {
    CoreIs(g, v, w, x);
    HereIs(g, x, s);
    RunAway(g, v.rest, w, x, cc);
    UnsignedTest(x.sect, s, cc);
  }

  lemma AfterDirectRead(g: VolumeGeometry, v: View, w: nat, x: Cursor, s: nat, cc: nat)
    requires Core(g, v, w, x) && Here(g, x, s) && ByteIn(x.fptr) == 0
    requires 0 < cc && SectorIn(g.csize, SectorOf(x.fptr)) + cc <= g.csize && x.fptr + 512 * cc <= x.objsize
    ensures var x' := x.(fptr := x.fptr + 512 * cc);
            Core(g, v, w, x') && Position(g, x') && Contents(g, v, x') == Contents(g, v, x)
  {
    CoreIs(g, v, w, x);
    HereIs(g, x, s);
    var x' := x.(fptr := x.fptr + 512 * cc);
    CoreIs(g, v, w, x');
    PositionIs(g, x');
    AdvanceSectors(g, x, cc);
  }

  // Stretching and writing.

  lemma AfterStretch(g: VolumeGeometry, v: View, w: nat, x: Cursor, n: nat, e: nat, v': View, w': nat)
    requires Core(g, v, w, x) && IsCluster(v.table, n) && v.table[n] == 0 && e >= |v.table| && WindowMoved(g, w, w')
    requires (Last(x.chain) == 0 || IsCluster(v.table, Last(x.chain))) && WellFormed(v'.table)
    requires v' == v.(fat := v'.fat, table := Appended(v.table, Last(x.chain), n, e))
    ensures var x' := x.(chain := x.chain + [n], sclust := if x.sclust == 0 then n else x.sclust);
            && Core(g, v', w', x') && Contents(g, v', x') == Contents(g, v, x)
            && Owned(g, v, v', x.chain, x'.chain)
            && (ClusterOf(g, x.fptr) == |x.chain| ==> IsNext(g, x', n))
  {
    var x' := x.(chain := x.chain + [n], sclust := if x.sclust == 0 then n else x.sclust);
    CoreIs(g, v, w, x);
    CoreIs(g, v', w, x');
    StretchedBy(g, v.rest, v.table, w, x, n, e, v'.table);
    AfterPeek(g, v', w, x', w');
    CoreIs(g, v', w', x');
    KeptStretch(g, v, v', x.chain, n, e);
  }

  /** What create_chain is asked for: a first cluster, or the one behind `c`. */
  ghost predicate Stretchable(f: seq<nat>, chain: seq<nat>, c: nat) {
    if c == 0 then chain == [] else chain != [] && IsCluster(f, c) && 2 <= f[c] && (f[c] >= |f| ==> c == Last(chain))
  }

  /** create_chain found the next cluster of the chain, or none at all. */
  ghost predicate Followed(f: seq<nat>, c: nat, r: nat) {
    r == 0 || (c != 0 && IsCluster(f, c) && f[c] < |f|)
  }

  ghost function Longer(x: Cursor, r: nat): Cursor {
    x.(chain := x.chain + [r], sclust := if x.sclust == 0 then r else x.sclust)
  }

  /** What create_chain has done to the volume. */
  ghost predicate Created(g: VolumeGeometry, v: View, w: nat, c: nat, r: nat, v': View, w': nat) {
    CreatedAfter(g, v, w, c, r, v', w', |v.rest|)
  }

  ghost predicate CreatedAfter(g: VolumeGeometry, v: View, w: nat, c: nat, r: nat, v': View, w': nat, countdown: nat) {
    if countdown > 0 then CreatedAfter(g, v, w, c, r, v', w', countdown - 1)
    else
      && v' == v.(fat := v'.fat, table := v'.table) && WindowMoved(g, w, w')
      && CreateOutcome(g, v.table, c, r, v'.table) && (r == DISK_ERROR || WellFormed(v'.table))
  }

  lemma {:induction false} CreatedAfterIs(g: VolumeGeometry, v: View, w: nat, c: nat, r: nat, v': View, w': nat,
      countdown: nat)
    ensures CreatedAfter(g, v, w, c, r, v', w', countdown) <==>
            && v' == v.(fat := v'.fat, table := v'.table) && WindowMoved(g, w, w')
            && CreateOutcome(g, v.table, c, r, v'.table) && (r == DISK_ERROR || WellFormed(v'.table))
  {
    if countdown > 0 {
      CreatedAfterIs(g, v, w, c, r, v', w', countdown - 1);
    }
  }

  /** create_chain on behalf of the file: the chain followed, stretched, or the drive full. */
  ghost predicate Stretched(g: VolumeGeometry, v: View, x: Cursor, c: nat, r: nat, v': View, x': Cursor) {
    if Followed(v.table, c, r) then
      x' == x && v'.table == v.table
      && (if r == 0 then FreeCount(v.table) == 0 && (c != 0 && c < |v.table| ==> v.table[c] >= |v.table|)
        else r == v.table[c])
    else 2 <= r && x' == Longer(x, r) && (ClusterOf(g, x.fptr) == |x.chain| ==> IsNext(g, x', r))
  }

  lemma AfterCreate(g: VolumeGeometry, v: View, w: nat, x: Cursor, c: nat, r: nat, v': View, w': nat)
    requires Core(g, v, w, x) && Stretchable(v.table, x.chain, c) && Created(g, v, w, c, r, v', w') && r != DISK_ERROR
    ensures var x' := if Followed(v.table, c, r) then x else Longer(x, r);
            && Core(g, v', w', x') && Contents(g, v', x') == Contents(g, v, x) && Owned(g, v, v', x.chain, x'.chain)
            && Stretched(g, v, x, c, r, v', x')
    ensures WindowMoved(g, w, w')
  {
    CreatedAfterIs(g, v, w, c, r, v', w', |v.rest|);
    CoreFacts(g, v, w, x);
    if Followed(v.table, c, r) {
      SameTable(g, v, w, x, v');
      CoreFacts(g, v', w, x);
      AfterPeek(g, v', w, x, w');
    } else {
      MaskedValues(g, 0);
      AfterStretch(g, v, w, x, r, EndMarkOf(g.fatType), v', w');
    }
  }

  /** What the file takes over of it. */
  lemma StretchedFields(g: VolumeGeometry, v: View, w: nat, x: Cursor, c: nat, r: nat, v': View, x': Cursor)
    requires Core(g, v, w, x) && Stretchable(v.table, x.chain, c) && Stretched(g, v, x, c, r, v', x')
    ensures x' == x.(chain := x'.chain, sclust := if r != 0 && x.sclust == 0 then r else x.sclust)
  {
    CoreFacts(g, v, w, x);
  }

  /** On a cluster boundary create_chain gives the cluster of the byte at the cursor. */
  lemma NextFound(g: VolumeGeometry, v: View, w: nat, x: Cursor, r: nat, v': View, x': Cursor)
    requires Core(g, v, w, x) && Position(g, x) && AtStart(g, x.fptr) && (x.fptr == 0 ==> x.sclust == 0)
    requires Stretched(g, v, x, if x.fptr == 0 then 0 else x.clust, r, v', x') && r != 0
    ensures 2 <= r && IsNext(g, x', r)
  {
    AtBoundary(g, v, w, x);
    CoreFacts(g, v, w, x);
  }

  lemma SameTable(g: VolumeGeometry, v: View, w: nat, x: Cursor, v': View)
    requires Core(g, v, w, x) && v' == v.(fat := v'.fat)
    ensures Core(g, v', w, x) && Contents(g, v', x) == Contents(g, v, x) && Owned(g, v, v', x.chain, x.chain)
  {
    CoreIs(g, v, w, x);
    CoreIs(g, v', w, x);
    KeptIs(g, v, v', x.chain);
  }

  /** create_chain stopped by a disk error: the file is as it was, and no cluster of another file is touched. */
  lemma AfterFailedCreate(g: VolumeGeometry, v: View, w: nat, x: Cursor, c: nat, v': View, w': nat)
      returns (own: seq<nat>)
    requires Core(g, v, w, x) && Stretchable(v.table, x.chain, c) && Created(g, v, w, c, DISK_ERROR, v', w')
    ensures Intact(g, v', w', x) && Contents(g, v', x) == Contents(g, v, x) && Owned(g, v, v', x.chain, own)
    ensures x.chain <= own && WindowMoved(g, w, w')
  {
    CreatedAfterIs(g, v, w, c, DISK_ERROR, v', w', |v.rest|);
    CoreIs(g, v, w, x);
    IntactIs(g, v', w, x);
    AfterPeek(g, v', w, x, w');
    RootedIs(g, v.table, w, x.sclust, x.chain);
    if v'.table == v.table {
      own := x.chain;
      KeptIs(g, v, v', own);
    } else {
      var n :| AppendStopped(g, v.table, c, n, v'.table);
      own := x.chain + [n];
      StoppedKept(g, v, v', x.chain, c, n);
    }
  }

  lemma StoppedKept(g: VolumeGeometry, v: View, v': View, chain: seq<nat>, c: nat, n: nat)
    requires && v' == v.(fat := v'.fat, table := v'.table) && AppendStopped(g, v.table, c, n, v'.table)
             && |v.table| == g.nFatent
    requires c == 0 || (chain != [] && c == Last(chain))
    ensures Owned(g, v, v', chain, chain + [n])
  {
    var own := chain + [n];
    assert own[..|chain|] == chain;
    StoppedTable(g, v.table, v'.table, c, n);
    KeptIs(g, v, v', own);
  }

  lemma StoppedTable(g: VolumeGeometry, f: seq<nat>, f': seq<nat>, c: nat, n: nat)
    requires AppendStopped(g, f, c, n, f') && |f| == g.nFatent
    ensures |f'| == |f| && forall d: nat :: d < |f| && d != c && d != n ==> f'[d] == f[d]
  {
  }

  /** One step after another on the same file. */
  lemma OwnedMore(g: VolumeGeometry, v: View, v': View, v'': View, chain: seq<nat>, w': nat, x': Cursor, own: seq<nat>)
    requires Owned(g, v, v', chain, x'.chain) && Core(g, v', w', x') && Owned(g, v', v'', x'.chain, own)
    ensures Owned(g, v, v'', chain, own)
  {
    CoreIs(g, v', w', x');
    RootedIs(g, v'.table, w', x'.sclust, x'.chain);
    forall i | |x'.chain| <= i < |own| ensures own[i] !in x'.chain {
      GrownAt(v'.table, x'.chain, own, i);
      forall k | 0 <= k < |x'.chain| ensures x'.chain[k] != own[i] {
        ChainAllocated(v'.table, x'.chain, k);
      }
    }
    OwnedTwice(g, v, v', v'', chain, x'.chain, own);
  }

  /** `data` has been written at `p`, and the cursor is behind it. */
  ghost predicate Written(b: seq<byte>, p: nat, data: seq<byte>, b': seq<byte>, p': nat) {
    WrittenAfter(b, p, data, b', p', |data|)
  }

  ghost predicate OpenWritten(b: seq<byte>, p: nat, data: seq<byte>, b': seq<byte>, p': nat) {
    p' == p + |data| && p <= |b| && b' == Overwrite(b, p, data)
  }

  ghost predicate WrittenAfter(b: seq<byte>, p: nat, data: seq<byte>, b': seq<byte>, p': nat, countdown: nat) {
    if countdown > 0 then WrittenAfter(b, p, data, b', p', countdown - 1) else OpenWritten(b, p, data, b', p')
  }

  lemma {:induction false} WrittenAfterIs(b: seq<byte>, p: nat, data: seq<byte>, b': seq<byte>, p': nat, countdown: nat)
    ensures WrittenAfter(b, p, data, b', p', countdown) <==> OpenWritten(b, p, data, b', p')
  {
    if countdown > 0 {
      WrittenAfterIs(b, p, data, b', p', countdown - 1);
    }
  }

  lemma WrittenIs(b: seq<byte>, p: nat, data: seq<byte>, b': seq<byte>, p': nat)
    ensures Written(b, p, data, b', p') <==> OpenWritten(b, p, data, b', p')
  {
    WrittenAfterIs(b, p, data, b', p', |data|);
  }

  /** A write at `p` has failed: what lies before is as it was. */
  ghost predicate Spoiled(b: seq<byte>, p: nat, b': seq<byte>, p': nat) {
    p' == p <= |b| == |b'| && b'[..p] == b[..p]
  }

  /** A write at `p` has failed after `data`: what lies before is as it should be. */
  ghost predicate Damaged(b: seq<byte>, p: nat, data: seq<byte>, b': seq<byte>, p': nat) {
    DamagedAfter(b, p, data, b', p', |data|)
  }

  ghost predicate OpenDamaged(b: seq<byte>, p: nat, data: seq<byte>, b': seq<byte>, p': nat) {
    p' == p + |data| && p <= |b| && |b'| == Max(|b|, p') && b'[..p'] == Overwrite(b, p, data)[..p']
  }

  ghost predicate DamagedAfter(b: seq<byte>, p: nat, data: seq<byte>, b': seq<byte>, p': nat, countdown: nat) {
    if countdown > 0 then DamagedAfter(b, p, data, b', p', countdown - 1) else OpenDamaged(b, p, data, b', p')
  }

  lemma {:induction false} DamagedAfterIs(b: seq<byte>, p: nat, data: seq<byte>, b': seq<byte>, p': nat, countdown: nat)
    ensures DamagedAfter(b, p, data, b', p', countdown) <==> OpenDamaged(b, p, data, b', p')
  {
    if countdown > 0 {
      DamagedAfterIs(b, p, data, b', p', countdown - 1);
    }
  }

  lemma DamagedIs(b: seq<byte>, p: nat, data: seq<byte>, b': seq<byte>, p': nat)
    ensures Damaged(b, p, data, b', p') <==> OpenDamaged(b, p, data, b', p')
  {
    DamagedAfterIs(b, p, data, b', p', |data|);
  }

  lemma WrittenNothing(b: seq<byte>, p: nat)
    requires p <= |b|
    ensures Written(b, p, [], b, p)
  {
    WrittenIs(b, p, [], b, p);
    var b' := Overwrite(b, p, []);
    forall i | 0 <= i < |b| ensures b'[i] == b[i] {
      OverwriteAt(b, p, [], i);
    }
  }

  lemma WrittenMore(b: seq<byte>, p: nat, data: seq<byte>, k: nat, b': seq<byte>, p': nat, n: nat, b'': seq<byte>,
      p'': nat)
    requires k + n <= |data| && Written(b, p, data[..k], b', p') && Written(b', p', data[k..][..n], b'', p'')
    ensures Written(b, p, data[..k + n], b'', p'')
  {
    WrittenIs(b, p, data[..k], b', p');
    WrittenIs(b', p', data[k..][..n], b'', p'');
    WrittenIs(b, p, data[..k + n], b'', p'');
    OverwriteTwice(b, p, data[..k], data[k..][..n]);
    assert data[..k] + data[k..][..n] == data[..k + n];
  }

  lemma WrittenThenSpoiled(b: seq<byte>, p: nat, data: seq<byte>, b': seq<byte>, p': nat, b'': seq<byte>, p'': nat)
    requires Written(b, p, data, b', p') && Spoiled(b', p', b'', p'')
    ensures Damaged(b, p, data, b'', p'')
  {
    WrittenIs(b, p, data, b', p');
    DamagedIs(b, p, data, b'', p'');
  }

  /** The cached sector, replaced by what has just been written if it was among it. */
  function Refreshed(buf: Sector, data: seq<byte>, sect: nat, s: nat, cc: nat): Sector
    requires |data| == 512 * cc && sect < 0x1_0000_0000 && s + cc < 0x1_0000_0000
  {
    UnsignedTest(sect, s, cc);
    if Sub32(sect, s) < cc then data[(sect - s) * 512..(sect - s) * 512 + 512] else buf
  }

  lemma RefreshedIs(buf: Sector, ss: seq<Sector>, sect: nat, s: nat)
    requires sect < 0x1_0000_0000 && s + |ss| < 0x1_0000_0000
    ensures Refreshed(buf, Flat(ss), sect, s, |ss|) == if s <= sect < s + |ss| then ss[sect - s] else buf
  {
    UnsignedTest(sect, s, |ss|);
    if s <= sect < s + |ss| {
      FlatSlice(ss, sect - s);
    }
  }

  lemma AfterDirectWrite(g: VolumeGeometry, v: View, w: nat, x: Cursor, s: nat, ss: seq<Sector>)
    requires Core(g, v, w, x) && !x.dirty && Here(g, x, s) && ByteIn(x.fptr) == 0
    requires 0 < |ss| && SectorIn(g.csize, SectorOf(x.fptr)) + |ss| <= g.csize && x.fptr + 512 * |ss| < 0x1_0000_0000
    ensures Behind(g, s) + |ss| <= |v.rest|
    ensures var v', x' := v.(rest := PutRun(v.rest, Behind(g, s), ss)), AfterRun(g, x, s, ss);
            && Core(g, v', w, x') && Position(g, x') && Kept(g, v, v', x.chain)
            && Written(Contents(g, v, x), x.fptr, Flat(ss), Contents(g, v', x'), x'.fptr)
  {
    CoreIs(g, v, w, x);
    HereIs(g, x, s);
    WroteRun(g, v.rest, v.table, w, x, ss);
    var v', x' := v.(rest := PutRun(v.rest, Behind(g, s), ss)), AfterRun(g, x, s, ss);
    CoreIs(g, v', w, x');
    PositionIs(g, x');
    WrittenIs(Contents(g, v, x), x.fptr, Flat(ss), Contents(g, v', x'), x'.fptr);
    WroteRunContents(g, v.rest, v.table, w, x, ss);
    KeptRun(g, v, x.chain, SectorOf(x.fptr), ss);
  }

  lemma AfterFailedWrite(g: VolumeGeometry, v: View, w: nat, x: Cursor, s: nat, ss: seq<Sector>)
    requires Core(g, v, w, x) && !x.dirty && Here(g, x, s) && ByteIn(x.fptr) == 0
    requires 0 < |ss| && SectorIn(g.csize, SectorOf(x.fptr)) + |ss| <= g.csize
    ensures Behind(g, s) + |ss| <= |v.rest|
    ensures var v' := v.(rest := PutRun(v.rest, Behind(g, s), ss));
            && Intact(g, v', w, x) && Kept(g, v, v', x.chain)
            && Spoiled(Contents(g, v, x), x.fptr, Contents(g, v', x), x.fptr)
  {
    CoreIs(g, v, w, x);
    HereIs(g, x, s);
    RunFailed(g, v.rest, v.table, w, x, ss);
    IntactIs(g, v.(rest := PutRun(v.rest, Behind(g, s), ss)), w, x);
    KeptRun(g, v, x.chain, SectorOf(x.fptr), ss);
  }

  lemma AfterBadRead(g: VolumeGeometry, v: View, w: nat, x: Cursor, junk: Sector)
    requires Core(g, v, w, x) && !x.dirty
    ensures && Intact(g, v, w, x.(buf := junk))
            && Spoiled(Contents(g, v, x), x.fptr, Contents(g, v, x.(buf := junk)), x.fptr)
  {
    CoreIs(g, v, w, x);
    IntactIs(g, v, w, x.(buf := junk));
  }

  lemma AfterCacheWrite(g: VolumeGeometry, v: View, w: nat, x: Cursor, s: nat, base: Sector, d: seq<byte>)
    requires Core(g, v, w, x) && Here(g, x, s) && IsBase(g, v.rest, x, s, base)
    requires 0 < |d| && ByteIn(x.fptr) + |d| <= 512 && x.fptr + |d| < 0x1_0000_0000
    ensures var x' := AfterCache(g, x, s, base, d);
            && Core(g, v, w, x') && Position(g, x')
            && Written(Contents(g, v, x), x.fptr, d, Contents(g, v, x'), x'.fptr)
  {
    CoreIs(g, v, w, x);
    HereIs(g, x, s);
    WroteCache(g, v.rest, v.table, w, x, base, d);
    var x' := AfterCache(g, x, s, base, d);
    CoreIs(g, v, w, x');
    PositionIs(g, x');
    WrittenIs(Contents(g, v, x), x.fptr, d, Contents(g, v, x'), x'.fptr);
    WroteCacheContents(g, v.rest, v.table, w, x, base, d);
  }

  // Truncating.

  /** The clusters behind the cursor's, as remove_chain is asked to free them: from the link of the current cluster
      on. */
  lemma CutHere(g: VolumeGeometry, v: View, w: nat, x: Cursor)
    requires Core(g, v, w, x) && Position(g, x) && x.fptr < x.objsize
    ensures var k := Needed(g, x.fptr);
            && k <= |x.chain| && x.sclust != 0 && |v.table| == g.nFatent && WellFormed(v.table)
            && (if x.fptr == 0 then k == 0 && IsCluster(v.table, x.sclust) &&
                                   Removable(v.table, x.sclust, 0) && Suffix(v.table, x.sclust) == x.chain[k..]
                else k > 0 && IsCluster(v.table, x.clust) && x.clust == x.chain[k - 1] && 2 <= v.table[x.clust]
                     && (if v.table[x.clust] < |v.table|
                         then k < |x.chain| && Suffix(v.table, v.table[x.clust]) == x.chain[k..]
                         else k == |x.chain|))
  {
    CoreIs(g, v, w, x);
    PositionIs(g, x);
    RootedIs(g, v.table, w, x.sclust, x.chain);
    CursorInside(g, v.rest, w, x);
    var k, f, s := Needed(g, x.fptr), v.table, x.chain;
    if x.fptr == 0 {
      ChainAllocated(f, s, 0);
      SuffixIs(f, s, 0);
    } else if k < |s| {
      SuffixIs(f, s, k);
    }
  }

  lemma NeededFits(g: VolumeGeometry, v: View, w: nat, x: Cursor)
    requires Core(g, v, w, x) && Position(g, x) && x.fptr < x.objsize
    ensures Needed(g, x.fptr) <= |x.chain|
  {
    CutHere(g, v, w, x);
  }

  lemma SuffixIs(f: seq<nat>, s: seq<nat>, k: nat)
    requires WellFormed(f) && IsChain(f, s) && k < |s|
    ensures Suffix(f, s[k]) == s[k..]
  {
    WellFormedIff(f);
    ChainAllocated(f, s, k);
    ChainSuffix(f, s, k);
    ChainUnique(f, s[k..], Suffix(f, s[k]));
  }

  /** The file after f_truncate. */
  ghost function Shortened(g: VolumeGeometry, x: Cursor): Cursor
    requires Needed(g, x.fptr) <= |x.chain|
  {
    x.(objsize := x.fptr, chain := x.chain[..Needed(g, x.fptr)], sclust := if x.fptr == 0 then 0 else x.sclust,
        dirty := false)
  }

  /** The clusters from number `k` on are free now, and nothing else has changed. */
  lemma AfterTruncate(g: VolumeGeometry, v: View, w: nat, x: Cursor, e: nat, v': View, w': nat)
    requires Core(g, v, w, x) && Position(g, x) && x.fptr < x.objsize && WindowMoved(g, w, w') && e >= |v.table|
    requires && Needed(g, x.fptr) <= |x.chain| && WellFormed(v'.table)
             && v'.table == CutOff(v.table, x.chain, Needed(g, x.fptr), e)
    requires v'.front == v.front && (x.dirty ==> Behind(g, x.sect) < |v.rest|) && v'.rest == Overlaid(g, v.rest, x)
    ensures Core(g, v', w', Shortened(g, x)) && Position(g, Shortened(g, x)) && Kept(g, v, v', x.chain)
    ensures x.fptr <= |Contents(g, v, x)| && Contents(g, v', Shortened(g, x)) == Contents(g, v, x)[..x.fptr]
  {
    var x1, x2, v1 := x.(dirty := false), Shortened(g, x), v.(rest := v'.rest);
    CoreIs(g, v, w, x);
    if x.dirty {
      WrittenBack(g, v.rest, v.table, w, x);
    }
    CoreIs(g, v1, w, x1);
    CutOffRooted(g, v.table, w, x.sclust, x.chain, Needed(g, x.fptr), e);
    PositionIs(g, x);
    Truncated(g, v1.rest, v1.table, w, x1, v'.table);
    CoreIs(g, v', w, x2);
    AfterPeek(g, v', w, x2, w');
    ShortPosition(g, x);
    KeptCut(g, v, v', w, x, e);
    CoreIs(g, v', w', x2);
  }

  lemma ShortPosition(g: VolumeGeometry, x: Cursor)
    requires Position(g, x) && Needed(g, x.fptr) <= |x.chain|
    ensures Position(g, Shortened(g, x))
  {
    PositionIs(g, x);
    var x' := Shortened(g, x);
    PositionIs(g, x');
    ProperPrefix(g, x'.chain, x.chain);
    if x.fptr > 0 {
      SectorBefore(x.fptr);
    } else {
      IndexByte(0);
    }
  }

  lemma KeptCut(g: VolumeGeometry, v: View, v': View, w: nat, x: Cursor, e: nat)
    requires && Core(g, v, w, x) && Needed(g, x.fptr) <= |x.chain|
             && v'.table == CutOff(v.table, x.chain, Needed(g, x.fptr), e)
    requires v'.front == v.front && (x.dirty ==> Behind(g, x.sect) < |v.rest|) && v'.rest == Overlaid(g, v.rest, x)
    ensures Kept(g, v, v', x.chain)
  {
    CoreIs(g, v, w, x);
    RootedIs(g, v.table, w, x.sclust, x.chain);
    KeptIs(g, v, v', x.chain);
    if x.dirty {
      DataBehind(g, x.sect);
    }
    var k := Needed(g, x.fptr);
    if k < |x.chain| {
      forall c: nat | c < |v.table| && c !in x.chain ensures v'.table[c] == v.table[c] {
        var f1 := if 0 < k && IsCluster(v.table, x.chain[k - 1]) then v.table[x.chain[k - 1] := e] else v.table;
        FreeAllOther(f1, x.chain[k..], c);
      }
    }
  }

  /** f_truncate stopped by a disk error: the file ends at the cursor all the same. */
  ghost function Stopped(x: Cursor): Cursor {
    x.(objsize := x.fptr, sclust := if x.fptr == 0 then 0 else x.sclust)
  }

  lemma AfterFailedTruncate(g: VolumeGeometry, v: View, w: nat, x: Cursor, v': View, w': nat, stored: Sector)
    requires Core(g, v, w, x) && x.fptr < x.objsize && WindowMoved(g, w, w')
    requires || v'.rest == v.rest
             || (x.dirty && Behind(g, x.sect) < |v.rest| && v'.rest == v.rest[Behind(g, x.sect) := stored])
    ensures Intact(g, v', w', Stopped(x))
    ensures x.fptr <= |Contents(g, v, x)| && Contents(g, v', Stopped(x)) == Contents(g, v, x)[..x.fptr]
  {
    var x' := Stopped(x);
    CoreIs(g, v, w, x);
    CoversByte(g, x.chain, x.objsize, x.fptr);
    if x.dirty {
      DataBehind(g, x.sect);
    }
    assert Overlaid(g, v'.rest, x') == Overlaid(g, v.rest, x);
    BytesPrefix(g, Overlaid(g, v.rest, x), x.chain, x.fptr, x.objsize);
    IntactIs(g, v', w, x');
    AfterPeek(g, v', w, x', w');
    IntactIs(g, v', w', x');
  }

  /** The dirty sector written back, or spoiled, after clusters have been freed. */
  lemma AwayKept(g: VolumeGeometry, v: View, w: nat, x: Cursor, v': View, stored: Sector)
    requires Core(g, v, w, x) && x.dirty && Kept(g, v, v', x.chain) && Behind(g, x.sect) < |v'.rest|
    ensures Kept(g, v, v'.(rest := v'.rest[Behind(g, x.sect) := stored]), x.chain)
  {
    CoreIs(g, v, w, x);
    KeptSector(g, v', x.chain, x.sect, stored);
    KeptTwice(g, v, v', v'.(rest := v'.rest[Behind(g, x.sect) := stored]), x.chain, x.chain);
  }

  /** What remove_chain leaves alone when it frees `chain` from number `k` on. */
  lemma RemovedKept(g: VolumeGeometry, v: View, v': View, chain: seq<nat>, k: nat, clst: nat, pclst: nat, res: FResult)
    requires v' == v.(fat := v'.fat, table := v'.table) && WellFormed(v.table) && IsCluster(v.table, clst)
    requires RemoveOutcome(g, v.table, clst, pclst, res, v'.table)
    requires k <= |chain| && Suffix(v.table, clst) == chain[k..] && (pclst == 0 || pclst in chain)
    ensures Kept(g, v, v', chain)
  {
    RemoveElsewhereAll(g, v.table, clst, pclst, res, v'.table, chain);
    KeptIs(g, v, v', chain);
  }

  lemma RemoveElsewhereAll(g: VolumeGeometry, f: seq<nat>, clst: nat, pclst: nat, res: FResult, f': seq<nat>,
      chain: seq<nat>)
    requires WellFormed(f) && IsCluster(f, clst) && RemoveOutcome(g, f, clst, pclst, res, f')
    requires (forall c :: c in Suffix(f, clst) ==> c in chain) && (pclst == 0 || pclst in chain)
    ensures |f'| == |f| && forall c: nat :: c < |f| && c !in chain ==> f'[c] == f[c]
  {
    forall c: nat | c < |f| && c !in chain ensures |f'| == |f| && f'[c] == f[c] {
      RemoveElsewhere(g, f, clst, pclst, res, f', c);
    }
  }
}
