/** An open file as a byte array with a cursor: what its fields have to do with the drive and the FAT, and what each
    elementary change of them means for its contents. */
module FatCursor {
  import opened FatBytes
  import opened FatTable
  import opened FatVolume
  import opened FatChain
  import opened FatAlloc
  import opened FatLayout

  /** The fields of an open file that the drive and the FAT have to agree with, and its cluster chain. */
  datatype Cursor = Cursor(
    sclust: nat, objsize: nat, fptr: nat, clust: nat, sect: nat, buf: Sector, dirty: bool, chain: seq<nat>)

  /** Sector `s` of the drive belongs to the chain. */
  predicate InChain(g: VolumeGeometry, chain: seq<nat>, s: nat) {
    g.database <= s < g.sectors && ClusterAt(g, s) in chain
  }

  /** Sector `s` of the drive as an index behind the FATs. */
  function Behind(g: VolumeGeometry, s: nat): nat {
    if s < RestBase(g) then 0 else s - RestBase(g)
  }

  /** What holds even after a disk error has put the file out of use; `w` is the sector in the volume's window. */
  ghost predicate IntactOpen(g: VolumeGeometry, rest: Disk, w: nat, x: Cursor) {
    && |rest| == g.sectors - RestBase(g)
    && Proper(g, x.chain)
    && Covers(g, x.chain, x.objsize) && x.objsize < 0x1_0000_0000
    && (x.dirty ==> InChain(g, x.chain, x.sect))
    && !InChain(g, x.chain, w)
  }

  /** The data clusters as the file sees them: overlaid with its dirty sector. */
  ghost function Overlaid(g: VolumeGeometry, rest: Disk, x: Cursor): (r: Disk)
    requires x.dirty ==> Behind(g, x.sect) < |rest|
    ensures |r| == |rest|
  {
    if x.dirty then rest[Behind(g, x.sect) := x.buf] else rest
  }

  /** The file as a byte array. */
  ghost function ContentsOpen(g: VolumeGeometry, rest: Disk, w: nat, x: Cursor): (b: seq<byte>)
    requires IntactOpen(g, rest, w, x)
    ensures |b| == x.objsize
  {
    Bytes(g, Overlaid(g, rest, x), x.chain, x.objsize)
  }

  /** The chain in the FAT is that of the file, and nothing links into its first cluster. */
  ghost predicate Linked(f: seq<nat>, sclust: nat, chain: seq<nat>) {
    if sclust == 0 then chain == [] else IsChain(f, chain) && chain[0] == sclust && IsHead(f, sclust)
  }

  /** The sector in the window, if it is one of a cluster, is one of a cluster in use. */
  ghost predicate WindowInUse(g: VolumeGeometry, f: seq<nat>, w: nat) {
    g.database <= w < g.sectors ==> Allocated(f, ClusterAt(g, w))
  }

  /** The FAT is well-formed and holds the file's chain. The countdown only keeps proofs from looking inside where
      RootedIs is not called. */
  ghost predicate Rooted(g: VolumeGeometry, f: seq<nat>, w: nat, sclust: nat, chain: seq<nat>) {
    RootedAfter(g, f, w, sclust, chain, |chain|)
  }

  ghost predicate RootedAfter(g: VolumeGeometry, f: seq<nat>, w: nat, sclust: nat, chain: seq<nat>, countdown: nat) {
    if countdown > 0 then RootedAfter(g, f, w, sclust, chain, countdown - 1)
    else |f| == g.nFatent && WellFormed(f) && Linked(f, sclust, chain) && WindowInUse(g, f, w)
  }

  lemma {:induction false} RootedAfterIs(g: VolumeGeometry, f: seq<nat>, w: nat, sclust: nat, chain: seq<nat>,
      countdown: nat)
    ensures RootedAfter(g, f, w, sclust, chain, countdown) <==>
              |f| == g.nFatent && WellFormed(f) && Linked(f, sclust, chain) && WindowInUse(g, f, w)
  {
    if countdown > 0 {
      RootedAfterIs(g, f, w, sclust, chain, countdown - 1);
    }
  }

  lemma RootedIs(g: VolumeGeometry, f: seq<nat>, w: nat, sclust: nat, chain: seq<nat>)
    ensures Rooted(g, f, w, sclust, chain) <==>
              |f| == g.nFatent && WellFormed(f) && Linked(f, sclust, chain) && WindowInUse(g, f, w)
  {
    RootedAfterIs(g, f, w, sclust, chain, |chain|);
  }

  /** A clean cached sector is as on the drive. */
  ghost predicate Clean(g: VolumeGeometry, rest: Disk, x: Cursor) {
    !x.dirty && x.sect != 0 ==>
      g.database <= x.sect < g.sectors && Behind(g, x.sect) < |rest| && x.buf == rest[Behind(g, x.sect)]
  }

  /** The file is in use and all is well, apart from the current cluster and sector. */
  ghost predicate CoreOpen(g: VolumeGeometry, rest: Disk, f: seq<nat>, w: nat, x: Cursor) {
    IntactOpen(g, rest, w, x) && Rooted(g, f, w, x.sclust, x.chain) && x.fptr <= x.objsize && Clean(g, rest, x)
  }

  /** The current cluster holds the byte before the cursor; within a sector, that sector is the cached one. */
  ghost predicate PositionOpen(g: VolumeGeometry, x: Cursor)
    requires Proper(g, x.chain)
  {
    && (x.fptr > 0 ==>
          HasSector(g, x.chain, SectorOf(x.fptr - 1)) && x.clust == x.chain[ClusterIx(g.csize, SectorOf(x.fptr - 1))])
    && (ByteIn(x.fptr) != 0 ==>
          HasSector(g, x.chain, SectorOf(x.fptr)) && x.sect == SectorNo(g, x.chain, SectorOf(x.fptr)))
  }

  /** The current cluster holds the byte at the cursor. */
  ghost predicate AtOpen(g: VolumeGeometry, x: Cursor) {
    HasSector(g, x.chain, SectorOf(x.fptr)) && x.clust == x.chain[ClusterIx(g.csize, SectorOf(x.fptr))]
  }

  /** The number on the drive of sector `j` of a file. */
  function SectorNo(g: VolumeGeometry, chain: seq<nat>, j: nat): (s: nat)
    requires Proper(g, chain) && HasSector(g, chain, j)
    ensures g.database <= s < g.sectors && InChain(g, chain, s) && Behind(g, s) == Lba(g, chain, j)
  {
    LbaCluster(g, chain, j);
    Lba(g, chain, j) + RestBase(g)
  }

  // Getting to the cluster of the cursor.

  lemma SectorBefore(p: nat)
    requires p > 0
    ensures ByteIn(p) != 0 ==> SectorOf(p - 1) == SectorOf(p)
    ensures ByteIn(p) == 0 ==> SectorOf(p) == SectorOf(p - 1) + 1
  {
    IndexByte(p);
    IndexByte(p - 1);
  }

  /** Off a cluster boundary the current cluster holds the byte at the cursor. */
  lemma SameCluster(g: VolumeGeometry, x: Cursor)
    requires && Proper(g, x.chain) && PositionOpen(g, x)
             && (ByteIn(x.fptr) != 0 || SectorIn(g.csize, SectorOf(x.fptr)) != 0)
    ensures AtOpen(g, x)
  {
    if x.fptr == 0 {
      IndexByte(0);
      assert false;
    }
    SectorBefore(x.fptr);
    NextSector(g.csize, SectorOf(x.fptr - 1));
  }

  /** On a cluster boundary it is the chain's first, or the one the current cluster links to. */
  lemma NextCluster(g: VolumeGeometry, rest: Disk, f: seq<nat>, w: nat, x: Cursor)
    requires && CoreOpen(g, rest, f, w, x) && PositionOpen(g, x) && ByteIn(x.fptr) == 0
             && SectorIn(g.csize, SectorOf(x.fptr)) == 0
    ensures var k := ClusterIx(g.csize, SectorOf(x.fptr));
            if x.fptr == 0 then k == 0 && (x.chain != [] ==> x.chain[0] == x.sclust)
            else k > 0 && k - 1 < |x.chain| && x.clust == x.chain[k - 1] && IsCluster(f, x.clust)
                 && (if k < |x.chain| then f[x.clust] == x.chain[k] else f[x.clust] >= |f| && k == |x.chain|)
  {
    RootedIs(g, f, w, x.sclust, x.chain);
    if x.fptr == 0 {
      IndexByte(0);
    } else {
      SectorBefore(x.fptr);
      NextSector(g.csize, SectorOf(x.fptr - 1));
    }
  }

  /** A byte of the file is in some sector of it. */
  lemma CursorInside(g: VolumeGeometry, rest: Disk, w: nat, x: Cursor)
    requires IntactOpen(g, rest, w, x) && x.fptr < x.objsize
    ensures HasSector(g, x.chain, SectorOf(x.fptr))
  {
    CoversByte(g, x.chain, x.objsize, x.fptr);
  }

  // The sector cache.

  /** Writing the dirty sector back changes nothing the file can see. */
  lemma WrittenBack(g: VolumeGeometry, rest: Disk, f: seq<nat>, w: nat, x: Cursor)
    requires IntactOpen(g, rest, w, x) && x.dirty
    ensures Behind(g, x.sect) < |rest|
    ensures var rest', x' := rest[Behind(g, x.sect) := x.buf], x.(dirty := false);
            && IntactOpen(g, rest', w, x') && ContentsOpen(g, rest', w, x') == ContentsOpen(g, rest, w, x)
            && (CoreOpen(g, rest, f, w, x) ==> CoreOpen(g, rest', f, w, x'))
  {
    DataBehind(g, x.sect);
  }

  lemma DataBehind(g: VolumeGeometry, s: nat)
    requires g.database <= s < g.sectors
    ensures RestBase(g) <= s && Behind(g, s) < g.sectors - RestBase(g) && Behind(g, s) + RestBase(g) == s
  {
  }

  /** Nor does a write-back that fails: the dirty sector still lies on top. */
  lemma WriteBackFailed(g: VolumeGeometry, rest: Disk, w: nat, x: Cursor, junk: Sector)
    requires IntactOpen(g, rest, w, x) && x.dirty
    ensures Behind(g, x.sect) < |rest|
    ensures var rest' := rest[Behind(g, x.sect) := junk];
            IntactOpen(g, rest', w, x) && ContentsOpen(g, rest', w, x) == ContentsOpen(g, rest, w, x)
  {
    DataBehind(g, x.sect);
    var b := Behind(g, x.sect);
    assert rest[b := junk][b := x.buf] == rest[b := x.buf];
  }

  /** Taking another sector of the file into the clean cache. */
  lemma Refilled(g: VolumeGeometry, rest: Disk, f: seq<nat>, w: nat, x: Cursor, s: nat)
    requires CoreOpen(g, rest, f, w, x) && !x.dirty && g.database <= s < g.sectors
    ensures Behind(g, s) < |rest|
    ensures var x' := x.(sect := s, buf := rest[Behind(g, s)]);
            CoreOpen(g, rest, f, w, x') && ContentsOpen(g, rest, w, x') == ContentsOpen(g, rest, w, x)
  {
    DataBehind(g, s);
  }

  /** The cached sector is the one at the cursor. */
  ghost predicate LoadedOpen(g: VolumeGeometry, x: Cursor)
    requires Proper(g, x.chain)
  {
    AtOpen(g, x) && x.sect == SectorNo(g, x.chain, SectorOf(x.fptr))
  }

  /** What the file holds at the cursor is what the cached sector holds there. */
  lemma FromCache(g: VolumeGeometry, rest: Disk, f: seq<nat>, w: nat, x: Cursor, n: nat)
    requires CoreOpen(g, rest, f, w, x) && LoadedOpen(g, x) && x.fptr + n <= x.objsize && ByteIn(x.fptr) + n <= 512
    ensures ContentsOpen(g, rest, w, x)[x.fptr..x.fptr + n] == x.buf[ByteIn(x.fptr)..ByteIn(x.fptr) + n]
  {
    ReadWithin(g, Overlaid(g, rest, x), x.chain, x.objsize, x.fptr, n);
  }

  /** The contents do not depend on where the cursor is. */
  lemma Moved(g: VolumeGeometry, rest: Disk, f: seq<nat>, w: nat, x: Cursor, p: nat)
    requires CoreOpen(g, rest, f, w, x) && p <= x.objsize
    ensures && CoreOpen(g, rest, f, w, x.(fptr := p))
            && ContentsOpen(g, rest, w, x.(fptr := p)) == ContentsOpen(g, rest, w, x)
  {
  }

  /** Moving the cursor within the cached sector, or to its end. */
  lemma Advance(g: VolumeGeometry, x: Cursor, n: nat)
    requires Proper(g, x.chain) && LoadedOpen(g, x) && 0 < n && ByteIn(x.fptr) + n <= 512
    ensures PositionOpen(g, x.(fptr := x.fptr + n))
  {
    SameSector(x.fptr, n - 1);
    if ByteIn(x.fptr + n) != 0 {
      SectorBefore(x.fptr + n);
    }
  }

  /** Moving it by whole sectors within the current cluster, or to its end. */
  lemma AdvanceSectors(g: VolumeGeometry, x: Cursor, cc: nat)
    requires && Proper(g, x.chain) && AtOpen(g, x) && ByteIn(x.fptr) == 0 && 0 < cc
             && SectorIn(g.csize, SectorOf(x.fptr)) + cc <= g.csize
    ensures PositionOpen(g, x.(fptr := x.fptr + 512 * cc))
  {
    var j := SectorOf(x.fptr);
    IndexByte(x.fptr);
    LbaRun(g, x.chain, j, cc - 1);
    SectorAt(j + cc, 0);
    SectorAt(j + cc - 1, 511);
    RunCluster(g.csize, j, cc - 1);
  }

  lemma {:induction false} RunCluster(csize: nat, j: nat, k: nat)
    requires 0 < csize && SectorIn(csize, j) + k < csize
    ensures ClusterIx(csize, j + k) == ClusterIx(csize, j) && SectorIn(csize, j + k) == SectorIn(csize, j) + k
    decreases k
  {
    if k > 0 {
      RunCluster(csize, j, k - 1);
      NextSector(csize, j + k - 1);
    }
  }

  /** Within the cluster of the cursor the sectors of the file follow each other on the drive. */
  lemma RunFits(g: VolumeGeometry, x: Cursor, cc: nat)
    requires Proper(g, x.chain) && AtOpen(g, x) && 0 < cc && SectorIn(g.csize, SectorOf(x.fptr)) + cc <= g.csize
    ensures SectorNo(g, x.chain, SectorOf(x.fptr)) + cc <= g.sectors
    ensures Lba(g, x.chain, SectorOf(x.fptr)) + cc <= g.sectors - RestBase(g)
  {
    LbaRun(g, x.chain, SectorOf(x.fptr), cc - 1);
  }

  /** Whole sectors read from the drive, one of them replaced by the cached one if that is dirty. */
  lemma FromDrive(g: VolumeGeometry, rest: Disk, f: seq<nat>, w: nat, x: Cursor, cc: nat)
    requires CoreOpen(g, rest, f, w, x) && AtOpen(g, x) && ByteIn(x.fptr) == 0 && x.fptr + 512 * cc <= x.objsize
    requires 0 < cc && SectorIn(g.csize, SectorOf(x.fptr)) + cc <= g.csize
    ensures Lba(g, x.chain, SectorOf(x.fptr)) + cc <= |rest|
    ensures var a := Lba(g, x.chain, SectorOf(x.fptr));
            ContentsOpen(g, rest, w, x)[x.fptr..x.fptr + 512 * cc] == Flat(Overlaid(g, rest, x)[a..a + cc])
  {
    RunFits(g, x, cc);
    IndexByte(x.fptr);
    ReadSectors(g, Overlaid(g, rest, x), x.chain, x.objsize, SectorOf(x.fptr), cc);
  }

  /** The bytes read, with the dirty sector copied over them, are those of the overlaid drive. */
  lemma OverlaidRun(rest: Disk, a: nat, cc: nat, b: nat, buf: Sector)
    requires a + cc <= |rest| && a <= b < a + cc
    ensures 512 * (b - a) + 512 <= 512 * cc
    ensures Flat(rest[b := buf][a..a + cc]) ==
            Flat(rest[a..a + cc])[..512 * (b - a)] + buf + Flat(rest[a..a + cc])[512 * (b - a) + 512..]
  {
    FlatReplace(rest[a..a + cc], b - a, buf);
    assert rest[b := buf][a..a + cc] == rest[a..a + cc][b - a := buf];
  }

  lemma NotOverlaid(rest: Disk, a: nat, cc: nat, b: nat, buf: Sector)
    requires a + cc <= |rest| && b < |rest| && !(a <= b < a + cc)
    ensures rest[b := buf][a..a + cc] == rest[a..a + cc]
  {
  }

  // Stretching the chain.

  /** The window may have gone to the FAT, or be empty. */
  predicate WindowMoved(g: VolumeGeometry, w: nat, w': nat) {
    w' == w || w' >= g.sectors || InFat1(g, w')
  }

  lemma WindowAway(g: VolumeGeometry, rest: Disk, f: seq<nat>, w: nat, x: Cursor, w': nat)
    requires IntactOpen(g, rest, w, x) && WindowMoved(g, w, w')
    ensures IntactOpen(g, rest, w', x) && ContentsOpen(g, rest, w', x) == ContentsOpen(g, rest, w, x)
    ensures CoreOpen(g, rest, f, w, x) ==> CoreOpen(g, rest, f, w', x)
  {
    assert w' != w ==> w' < g.database || w' >= g.sectors;
    RootedIs(g, f, w, x.sclust, x.chain);
    RootedIs(g, f, w', x.sclust, x.chain);
  }

  lemma ChainAllocated(f: seq<nat>, s: seq<nat>, i: nat)
    requires IsChain(f, s) && i < |s|
    ensures f[s[i]] != 0
  {
    if i < |s| - 1 {
      assert f[s[i]] == s[i + 1] && IsCluster(f, s[i + 1]);
    }
  }

  /** The last cluster, 0 if there is none: what create_chain is to stretch. */
  function Last(chain: seq<nat>): nat {
    if chain == [] then 0 else chain[|chain| - 1]
  }

  lemma StretchedChain(f: seq<nat>, sclust: nat, chain: seq<nat>, n: nat, e: nat)
    requires Linked(f, sclust, chain) && IsCluster(f, n) && f[n] == 0 && e >= |f| && WellFormed(f)
    ensures n !in chain
    ensures Last(chain) == 0 || (IsCluster(f, Last(chain)) && f[Last(chain)] >= |f|)
    ensures Linked(Appended(f, Last(chain), n, e), if sclust == 0 then n else sclust, chain + [n])
  {
    if chain != [] {
      AppendChains(f, Last(chain), n, e, chain);
      forall i | 0 <= i < |chain| ensures chain[i] != n {
        ChainAllocated(f, chain, i);
      }
    }
    FreeIsHead(f, n);
  }

  /** A free cluster appended to the chain leaves the file as it was. */
  lemma StretchedBy(g: VolumeGeometry, rest: Disk, f: seq<nat>, w: nat, x: Cursor, n: nat, e: nat, f': seq<nat>)
    requires CoreOpen(g, rest, f, w, x) && IsCluster(f, n) && f[n] == 0 && e >= |f| && WellFormed(f')
    requires (Last(x.chain) == 0 || IsCluster(f, Last(x.chain))) && f' == Appended(f, Last(x.chain), n, e)
    ensures var x' := x.(chain := x.chain + [n], sclust := if x.sclust == 0 then n else x.sclust);
            CoreOpen(g, rest, f', w, x') && ContentsOpen(g, rest, w, x') == ContentsOpen(g, rest, w, x)
  {
    var x' := x.(chain := x.chain + [n], sclust := if x.sclust == 0 then n else x.sclust);
    RootedIs(g, f, w, x.sclust, x.chain);
    RootedIs(g, f', w, x'.sclust, x'.chain);
    StretchedChain(f, x.sclust, x.chain, n, e);
    ProperSnoc(g, x.chain, n);
    LongerChain(g, Overlaid(g, rest, x), x.chain, x'.chain, x.objsize);
  }

  // Writing.

  /** The file after whole sectors have been written straight to the drive at the cursor. */
  ghost function AfterRun(g: VolumeGeometry, x: Cursor, s: nat, ss: seq<Sector>): Cursor {
    x.(buf := if s <= x.sect < s + |ss| then ss[x.sect - s] else x.buf,
       fptr := x.fptr + 512 * |ss|, objsize := Max(x.objsize, x.fptr + 512 * |ss|))
  }

  lemma WroteRun(g: VolumeGeometry, rest: Disk, f: seq<nat>, w: nat, x: Cursor, ss: seq<Sector>)
    requires CoreOpen(g, rest, f, w, x) && !x.dirty && AtOpen(g, x) && ByteIn(x.fptr) == 0
    requires 0 < |ss| && SectorIn(g.csize, SectorOf(x.fptr)) + |ss| <= g.csize && x.fptr + 512 * |ss| < 0x1_0000_0000
    ensures Lba(g, x.chain, SectorOf(x.fptr)) + |ss| <= |rest|
    ensures var rest', x' := PutRun(rest, Lba(g, x.chain, SectorOf(x.fptr)), ss),
                        AfterRun(g, x, SectorNo(g, x.chain, SectorOf(x.fptr)), ss);
            CoreOpen(g, rest', f, w, x')
  {
    RunFits(g, x, |ss|);
    RunContents(g, rest, x.chain, x.objsize, x.fptr, ss);
    RunClean(g, rest, x, SectorNo(g, x.chain, SectorOf(x.fptr)), ss);
  }

  lemma WroteRunContents(g: VolumeGeometry, rest: Disk, f: seq<nat>, w: nat, x: Cursor, ss: seq<Sector>)
    requires CoreOpen(g, rest, f, w, x) && !x.dirty && AtOpen(g, x) && ByteIn(x.fptr) == 0
    requires 0 < |ss| && SectorIn(g.csize, SectorOf(x.fptr)) + |ss| <= g.csize && x.fptr + 512 * |ss| < 0x1_0000_0000
    requires Lba(g, x.chain, SectorOf(x.fptr)) + |ss| <= |rest|
    requires var rest', x' := PutRun(rest, Lba(g, x.chain, SectorOf(x.fptr)), ss),
                        AfterRun(g, x, SectorNo(g, x.chain, SectorOf(x.fptr)), ss);
             CoreOpen(g, rest', f, w, x')
    ensures var rest', x' := PutRun(rest, Lba(g, x.chain, SectorOf(x.fptr)), ss),
                        AfterRun(g, x, SectorNo(g, x.chain, SectorOf(x.fptr)), ss);
            && PositionOpen(g, x')
            && ContentsOpen(g, rest', w, x') == Overwrite(ContentsOpen(g, rest, w, x), x.fptr, Flat(ss))
  {
    RunContents(g, rest, x.chain, x.objsize, x.fptr, ss);
    AdvanceSectors(g, x, |ss|);
  }

  lemma RunContents(g: VolumeGeometry, rest: Disk, chain: seq<nat>, n: nat, p: nat, ss: seq<Sector>)
    requires Proper(g, chain) && |rest| == g.sectors - RestBase(g) && Covers(g, chain, n)
    requires p <= n && ByteIn(p) == 0 && HasSector(g, chain, SectorOf(p))
    requires 0 < |ss| && SectorIn(g.csize, SectorOf(p)) + |ss| <= g.csize && Lba(g, chain, SectorOf(p)) + |ss| <= |rest|
    ensures Covers(g, chain, Max(n, p + 512 * |ss|))
    ensures Bytes(g, PutRun(rest, Lba(g, chain, SectorOf(p)), ss), chain, Max(n, p + 512 * |ss|)) ==
              Overwrite(Bytes(g, rest, chain, n), p, Flat(ss))
  {
    IndexByte(p);
    WriteSectors(g, rest, chain, n, SectorOf(p), ss);
  }

  lemma RunClean(g: VolumeGeometry, rest: Disk, x: Cursor, s: nat, ss: seq<Sector>)
    requires && |rest| == g.sectors - RestBase(g) && g.database <= s < g.sectors && Behind(g, s) + |ss| <= |rest|
             && Clean(g, rest, x)
    ensures Clean(g, PutRun(rest, Behind(g, s), ss), AfterRun(g, x, s, ss))
  {
    if x.sect != 0 && !x.dirty {
      DataBehind(g, x.sect);
      DataBehind(g, s);
      PutRunAt(rest, Behind(g, s), ss, Behind(g, x.sect));
    }
  }

  /** A direct write that fails may spoil what it aimed at, but nothing before the cursor. */
  lemma RunFailed(g: VolumeGeometry, rest: Disk, f: seq<nat>, w: nat, x: Cursor, ss: seq<Sector>)
    requires CoreOpen(g, rest, f, w, x) && !x.dirty && AtOpen(g, x) && ByteIn(x.fptr) == 0
    requires 0 < |ss| && SectorIn(g.csize, SectorOf(x.fptr)) + |ss| <= g.csize
    ensures Lba(g, x.chain, SectorOf(x.fptr)) + |ss| <= |rest|
    ensures var rest' := PutRun(rest, Lba(g, x.chain, SectorOf(x.fptr)), ss);
            && IntactOpen(g, rest', w, x)
            && ContentsOpen(g, rest', w, x)[..x.fptr] == ContentsOpen(g, rest, w, x)[..x.fptr]
  {
    RunFits(g, x, |ss|);
    var j := SectorOf(x.fptr);
    var rest', n' := PutRun(rest, Lba(g, x.chain, j), ss), Max(x.objsize, 512 * (j + |ss|));
    IndexByte(x.fptr);
    WriteSectors(g, rest, x.chain, x.objsize, j, ss);
    var b, b' := ContentsOpen(g, rest, w, x), ContentsOpen(g, rest', w, x);
    forall i | 0 <= i < x.fptr ensures b'[i] == b[i] {
      BytesAt(g, rest', x.chain, n', i);
      BytesAt(g, rest', x.chain, x.objsize, i);
      OverwriteAt(b, x.fptr, Flat(ss), i);
    }
  }

  /** What lies behind the end of the file does not matter. */
  lemma BeyondEnd(g: VolumeGeometry, rest: Disk, chain: seq<nat>, n: nat, j: nat, s: Sector)
    requires Proper(g, chain) && |rest| == g.sectors - RestBase(g)
    requires Covers(g, chain, n) && n <= 512 * j && HasSector(g, chain, j)
    ensures Bytes(g, rest[Lba(g, chain, j) := s], chain, n) == Bytes(g, rest, chain, n)
  {
    var rest' := rest[Lba(g, chain, j) := s];
    var x, y := Bytes(g, rest', chain, n), Bytes(g, rest, chain, n);
    forall i | 0 <= i < n ensures x[i] == y[i] {
      BytesAt(g, rest', chain, n, i);
      BytesAt(g, rest, chain, n, i);
      IndexByte(i);
      WriteSectorAt(g, rest, chain, j, s, i);
    }
  }

  /** The file after `d` has been put into the sector at the cursor, over `base`. */
  ghost function AfterCache(g: VolumeGeometry, x: Cursor, s: nat, base: Sector, d: seq<byte>): Cursor
    requires ByteIn(x.fptr) + |d| <= 512
  {
    x.(sect := s, buf := Patch(base, ByteIn(x.fptr), d), dirty := true,
       fptr := x.fptr + |d|, objsize := Max(x.objsize, x.fptr + |d|))
  }

  /** `base` is the sector at the cursor, or the cursor is at the end of the file and of a sector. */
  ghost predicate IsBase(g: VolumeGeometry, rest: Disk, x: Cursor, s: nat, base: Sector) {
    || (x.sect == s && base == x.buf)
    || (!x.dirty && Behind(g, s) < |rest| && base == rest[Behind(g, s)])
    || (!x.dirty && x.fptr == x.objsize && ByteIn(x.fptr) == 0)
  }

  lemma WroteCache(g: VolumeGeometry, rest: Disk, f: seq<nat>, w: nat, x: Cursor, base: Sector, d: seq<byte>)
    requires && CoreOpen(g, rest, f, w, x) && AtOpen(g, x) && 0 < |d| && ByteIn(x.fptr) + |d| <= 512
             && x.fptr + |d| < 0x1_0000_0000
    ensures var x' := AfterCache(g, x, SectorNo(g, x.chain, SectorOf(x.fptr)), base, d);
            CoreOpen(g, rest, f, w, x') && PositionOpen(g, x')
  {
    var x' := AfterCache(g, x, SectorNo(g, x.chain, SectorOf(x.fptr)), base, d);
    SameSector(x.fptr, |d| - 1);
    Advance(g, x.(sect := x'.sect), |d|);
  }

  lemma WroteCacheContents(g: VolumeGeometry, rest: Disk, f: seq<nat>, w: nat, x: Cursor, base: Sector, d: seq<byte>)
    requires && CoreOpen(g, rest, f, w, x) && AtOpen(g, x) && 0 < |d| && ByteIn(x.fptr) + |d| <= 512
             && x.fptr + |d| < 0x1_0000_0000
    requires IsBase(g, rest, x, SectorNo(g, x.chain, SectorOf(x.fptr)), base)
    requires CoreOpen(g, rest, f, w, AfterCache(g, x, SectorNo(g, x.chain, SectorOf(x.fptr)), base, d))
    ensures ContentsOpen(g, rest, w, AfterCache(g, x, SectorNo(g, x.chain, SectorOf(x.fptr)), base, d)) ==
              Overwrite(ContentsOpen(g, rest, w, x), x.fptr, d)
  {
    OverlaidCache(g, rest, x, SectorNo(g, x.chain, SectorOf(x.fptr)), base, d);
    if x.fptr == x.objsize && ByteIn(x.fptr) == 0 {
      GrowContents(g, Overlaid(g, rest, x), x.chain, x.objsize, base, d);
    } else {
      PatchContents(g, Overlaid(g, rest, x), x.chain, x.objsize, x.fptr, d);
    }
  }

  lemma OverlaidCache(g: VolumeGeometry, rest: Disk, x: Cursor, s: nat, base: Sector, d: seq<byte>)
    requires && Behind(g, s) < |rest| && s != 0 && ByteIn(x.fptr) + |d| <= 512 && IsBase(g, rest, x, s, base)
             && Clean(g, rest, x)
    ensures Overlaid(g, rest, AfterCache(g, x, s, base, d)) ==
              Overlaid(g, rest, x)[Behind(g, s) := Patch(base, ByteIn(x.fptr), d)]
    ensures Overlaid(g, rest, x)[Behind(g, s)] == base || (x.fptr == x.objsize && ByteIn(x.fptr) == 0)
  {
  }

  lemma PatchContents(g: VolumeGeometry, rest: Disk, chain: seq<nat>, n: nat, p: nat, d: seq<byte>)
    requires Proper(g, chain) && |rest| == g.sectors - RestBase(g) && Covers(g, chain, n)
    requires p <= n && 0 < |d| && ByteIn(p) + |d| <= 512 && HasSector(g, chain, SectorOf(p))
    ensures Covers(g, chain, Max(n, p + |d|))
    ensures var b := Lba(g, chain, SectorOf(p));
            Bytes(g, rest[b := Patch(rest[b], ByteIn(p), d)], chain, Max(n, p + |d|)) ==
              Overwrite(Bytes(g, rest, chain, n), p, d)
  {
    SameSector(p, |d| - 1);
    WriteWithin(g, rest, chain, n, p, d);
  }

  lemma GrowContents(g: VolumeGeometry, rest: Disk, chain: seq<nat>, n: nat, base: Sector, d: seq<byte>)
    requires Proper(g, chain) && |rest| == g.sectors - RestBase(g) && Covers(g, chain, n)
    requires ByteIn(n) == 0 && 0 < |d| <= 512 && HasSector(g, chain, SectorOf(n))
    ensures Covers(g, chain, Max(n, n + |d|))
    ensures var b := Lba(g, chain, SectorOf(n));
            Bytes(g, rest[b := Patch(base, ByteIn(n), d)], chain, Max(n, n + |d|)) ==
              Overwrite(Bytes(g, rest, chain, n), n, d)
  {
    var b := Lba(g, chain, SectorOf(n));
    IndexByte(n);
    BeyondEnd(g, rest, chain, n, SectorOf(n), base);
    PatchContents(g, rest[b := base], chain, n, n, d);
    assert rest[b := base][b := Patch(base, ByteIn(n), d)] == rest[b := Patch(base, ByteIn(n), d)];
  }

  // Seeking.

  /** The cluster, counted along the chain, that byte `i` of a file is in. */
  function ClusterOf(g: VolumeGeometry, i: nat): nat {
    ClusterIx(g.csize, SectorOf(i))
  }

  /** In the source's terms. */
  lemma ClusterOfDiv(g: VolumeGeometry, i: nat)
    ensures g.csize * 512 > 0 && ClusterOf(g, i) == i / (g.csize * 512)
    ensures i % (g.csize * 512) == 512 * SectorIn(g.csize, SectorOf(i)) + ByteIn(i)
  {
    ClusterIxBytes(g.csize, i);
  }

  lemma ClusterIxBytes(m: nat, i: nat)
    requires m > 0
    ensures ClusterIx(m, SectorOf(i)) == i / (m * 512)
    ensures i % (m * 512) == 512 * SectorIn(m, SectorOf(i)) + ByteIn(i)
  {
    var j := SectorOf(i);
    IndexByte(i);
    ClusterIxDiv(m, j);
    assert j == m * (j / m) + j % m;
    ByteDiv(m, i, j, ByteIn(i), j / m, j % m);
  }

  lemma ByteDiv(m: nat, i: nat, j: nat, o: nat, q: nat, r: nat)
    requires m > 0 && i == 512 * j + o && o < 512 && j == m * q + r && r < m
    ensures i / (m * 512) == q && i % (m * 512) == 512 * r + o
  {
    assert i == (m * 512) * q + (512 * r + o);
    DivUnique(m * 512, i, q, 512 * r + o);
  }

  /** Byte `p` is the first of a cluster. */
  ghost predicate AtStart(g: VolumeGeometry, p: nat) {
    ByteIn(p) == 0 && SectorIn(g.csize, SectorOf(p)) == 0
  }

  lemma StartOf(g: VolumeGeometry, i: nat)
    ensures g.csize * 512 > 0 && i - i % (g.csize * 512) >= 0
    ensures AtStart(g, i - i % (g.csize * 512)) && ClusterOf(g, i - i % (g.csize * 512)) == ClusterOf(g, i)
  {
    ClusterOfDiv(g, i);
    var j := SectorOf(i);
    var r := SectorIn(g.csize, j);
    IndexByte(i);
    SectorInAtMost(g.csize, j);
    RunBack(g.csize, j, r);
    SectorAt(j - r, 0);
    assert i - i % (g.csize * 512) == 512 * (j - r);
  }

  lemma {:induction false} SectorInAtMost(csize: nat, j: nat)
    requires csize > 0
    ensures SectorIn(csize, j) <= j
    decreases j
  {
    if j >= csize {
      SectorInAtMost(csize, j - csize);
    }
  }

  lemma {:induction false} RunBack(csize: nat, j: nat, r: nat)
    requires csize > 0 && r == SectorIn(csize, j) <= j
    ensures ClusterIx(csize, j - r) == ClusterIx(csize, j) && SectorIn(csize, j - r) == 0
    decreases j
  {
    if j >= csize {
      SectorInAtMost(csize, j - csize);
      RunBack(csize, j - csize, r);
    }
  }

  lemma NextStart(g: VolumeGeometry, p: nat)
    requires AtStart(g, p)
    ensures AtStart(g, p + g.csize * 512) && ClusterOf(g, p + g.csize * 512) == ClusterOf(g, p) + 1
  {
    IndexByte(p);
    SectorAt(SectorOf(p) + g.csize, 0);
  }

  /** Byte `p + o` lies in the cluster that starts at `p`. */
  lemma WithinCluster(g: VolumeGeometry, p: nat, o: nat)
    requires AtStart(g, p) && o < g.csize * 512
    ensures && ClusterOf(g, p + o) == ClusterOf(g, p) && ByteIn(p + o) == ByteIn(o)
            && SectorIn(g.csize, SectorOf(p + o)) == SectorOf(o)
  {
    IndexByte(p);
    IndexByte(o);
    SectorAt(SectorOf(p) + SectorOf(o), ByteIn(o));
    RunCluster(g.csize, SectorOf(p), SectorOf(o));
  }

  lemma {:induction false} BytesPrefix(g: VolumeGeometry, rest: Disk, chain: seq<nat>, n: nat, n': nat)
    requires Proper(g, chain) && |rest| == g.sectors - RestBase(g) && Covers(g, chain, n') && n <= n'
    ensures Covers(g, chain, n) && Bytes(g, rest, chain, n')[..n] == Bytes(g, rest, chain, n)
  {
    if n < n' {
      CoversByte(g, chain, n', n);
    }
    var x, y := Bytes(g, rest, chain, n')[..n], Bytes(g, rest, chain, n);
    forall i | 0 <= i < n ensures x[i] == y[i] {
      BytesAt(g, rest, chain, n', i);
      BytesAt(g, rest, chain, n, i);
    }
  }

  /** Moving the cursor keeps what the file held; moving it behind the end makes the file longer. */
  lemma Sought(g: VolumeGeometry, rest: Disk, f: seq<nat>, w: nat, x: Cursor, p: nat, c: nat)
    requires CoreOpen(g, rest, f, w, x) && Covers(g, x.chain, p) && p < 0x1_0000_0000
    ensures var x' := x.(fptr := p, clust := c, objsize := Max(x.objsize, p));
            && CoreOpen(g, rest, f, w, x')
            && ContentsOpen(g, rest, w, x')[..x.objsize] == ContentsOpen(g, rest, w, x)
  {
    BytesPrefix(g, Overlaid(g, rest, x), x.chain, x.objsize, Max(x.objsize, p));
  }

  // Truncating.

  /** The clusters that hold the first `n` bytes. */
  function Needed(g: VolumeGeometry, n: nat): nat {
    if n == 0 then 0 else ClusterOf(g, n - 1) + 1
  }

  lemma ShorterChain(g: VolumeGeometry, rest: Disk, chain: seq<nat>, n: nat)
    requires Proper(g, chain) && |rest| == g.sectors - RestBase(g) && Covers(g, chain, n)
    ensures Needed(g, n) <= |chain| && Proper(g, chain[..Needed(g, n)]) && Covers(g, chain[..Needed(g, n)], n)
    ensures Bytes(g, rest, chain[..Needed(g, n)], n) == Bytes(g, rest, chain, n)
  {
    ProperPrefix(g, chain[..Needed(g, n)], chain);
    LongerChain(g, rest, chain[..Needed(g, n)], chain, n);
  }

  /** The FAT once the clusters from number `k` on have been freed. */
  function CutOff(f: seq<nat>, chain: seq<nat>, k: nat, e: nat): (f': seq<nat>)
    requires k <= |chain|
    ensures |f'| == |f|
  {
    if k == |chain| then f
    else FreeAll(if 0 < k && IsCluster(f, chain[k - 1]) then f[chain[k - 1] := e] else f, chain[k..])
  }

  lemma CutOffAt(f: seq<nat>, chain: seq<nat>, k: nat, e: nat, c: nat)
    requires k < |chain| && IsCluster(f, c)
    ensures CutOff(f, chain, k, e)[c] == if c in chain[k..] then 0 else if 0 < k && c == chain[k - 1] then e else f[c]
  {
    FreeAllAt(if 0 < k && IsCluster(f, chain[k - 1]) then f[chain[k - 1] := e] else f, chain[k..], c);
  }

  /** What remains is a chain. */
  lemma CutOffChain(g: VolumeGeometry, f: seq<nat>, chain: seq<nat>, k: nat, e: nat)
    requires IsChain(f, chain) && 0 < k <= |chain| && e >= |f| && |f| == g.nFatent
    ensures IsChain(CutOff(f, chain, k, e), chain[..k])
  {
    if k == |chain| {
      assert chain[..k] == chain;
    } else {
      var c, f' := chain[k - 1], CutOff(f, chain, k, e);
      EndMarkInside(f, c, e, chain, k - 1);
      var s := chain[..k];
      forall i | 0 <= i < k ensures IsCluster(f', s[i]) && f'[s[i]] == f[c := e][s[i]] {
        CutOffAt(f, chain, k, e, s[i]);
        NotBehind(f, chain, k, i);
      }
      assert IsChain(f[c := e], s);
      forall i | 0 <= i < |s| - 1 ensures f'[s[i]] == s[i + 1] {
      }
    }
  }

  lemma NotBehind(f: seq<nat>, chain: seq<nat>, k: nat, i: nat)
    requires IsChain(f, chain) && i < k <= |chain|
    ensures chain[i] !in chain[k..]
  {
    var s := chain[k..];
    forall j | 0 <= j < |s| ensures s[j] != chain[i] {
      ChainDistinct(f, chain, i, k + j);
    }
  }

  lemma CutOffRooted(g: VolumeGeometry, f: seq<nat>, w: nat, sclust: nat, chain: seq<nat>, k: nat, e: nat)
    requires Rooted(g, f, w, sclust, chain) && k <= |chain| && e >= |f| && WellFormed(CutOff(f, chain, k, e))
    requires !InChain(g, chain, w)
    ensures Rooted(g, CutOff(f, chain, k, e), w, if k == 0 then 0 else sclust, chain[..k])
  {
    var f' := CutOff(f, chain, k, e);
    RootedIs(g, f, w, sclust, chain);
    RootedIs(g, f', w, if k == 0 then 0 else sclust, chain[..k]);
    if k > 0 {
      CutOffChain(g, f, chain, k, e);
      forall d: nat | IsCluster(f', d) ensures f'[d] != sclust {
        if k < |chain| {
          CutOffAt(f, chain, k, e, d);
        }
      }
    }
    if g.database <= w < g.sectors && k < |chain| {
      CutOffAt(f, chain, k, e, ClusterAt(g, w));
    }
  }

  /** Cutting the file off at the cursor. */
  lemma Truncated(g: VolumeGeometry, rest: Disk, f: seq<nat>, w: nat, x: Cursor, f': seq<nat>)
    requires CoreOpen(g, rest, f, w, x) && PositionOpen(g, x) && !x.dirty && Needed(g, x.fptr) <= |x.chain|
    requires Rooted(g, f', w, if x.fptr == 0 then 0 else x.sclust, x.chain[..Needed(g, x.fptr)])
    ensures var x' := x.(objsize := x.fptr, chain := x.chain[..Needed(g, x.fptr)],
                        sclust := if x.fptr == 0 then 0 else x.sclust);
            && CoreOpen(g, rest, f', w, x')
            && ContentsOpen(g, rest, w, x') == ContentsOpen(g, rest, w, x)[..x.fptr]
  {
    BytesPrefix(g, rest, x.chain, x.fptr, x.objsize);
    ShorterChain(g, rest, x.chain, x.fptr);
  }
}
