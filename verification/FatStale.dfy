/** f_truncate can leave a sector in the cache of a file that is not its own any more. Here it is taken by another
    file, given up, and taken back: the file then has two contents at once. */
module FatStale {
  import opened FatBytes
  import opened FatTable
  import opened FatVolume
  import opened FatChain
  import opened FatAlloc
  import opened FatLayout
  import opened FatCursor
  import opened FatApart
  import opened FatState
  import opened FatSeek
  import opened FatEntry
  import opened FatFile
  import opened FatFiles
  import opened FatSession

  /** Two clusters of a volume with clusters of one sector, and what lies behind its FATs. */
  ghost predicate Setting(g: VolumeGeometry, rest: Disk, c: nat, d: nat) {
    g.csize == 1 && 2 <= c < g.nFatent && 2 <= d < g.nFatent && c != d && |rest| == g.sectors - RestBase(g)
  }

  /** The FAT in which the one entry is `e`, the other `e'`, and all else is free. */
  function Entries(g: VolumeGeometry, c: nat, e: nat, d: nat, e': nat): (f: seq<nat>)
    requires c < g.nFatent && d < g.nFatent && c != d
    ensures |f| == g.nFatent && f[c] == e && f[d] == e' && forall k :: 0 <= k < |f| && k != c && k != d ==> f[k] == 0
  {
    seq(g.nFatent, _ => 0)[c := e][d := e']
  }

  lemma {:induction false} OneSector(j: nat)
    ensures ClusterIx(1, j) == j && SectorIn(1, j) == 0
  {
    if j > 0 {
      OneSector(j - 1);
    }
  }

  /** The sector of a cluster. */
  lemma SectorOfCluster(g: VolumeGeometry, c: nat)
    requires g.csize == 1 && 2 <= c < g.nFatent
    ensures var s := ClusterBase(g, c); g.database <= s < g.sectors && ClusterAt(g, s) == c && RestBase(g) <= g.database
  {
    ClusterFits(g, c);
    OneSector(c - 2);
  }

  lemma Tables(g: VolumeGeometry, rest: Disk, c: nat, d: nat)
    requires Setting(g, rest, c, d)
    ensures var e := EndMarkOf(g.fatType);
            && WellFormed(Entries(g, c, d, d, e)) && WellFormed(Entries(g, c, e, d, 0))
            && WellFormed(Entries(g, c, e, d, e)) && e >= g.nFatent
  {
    var e := EndMarkOf(g.fatType);
    MaskedValues(g, 0);
    var f, f', f'' := Entries(g, c, d, d, e), Entries(g, c, e, d, 0), Entries(g, c, e, d, e);
    assert IsChain(f, [c, d]) && IsChain(f, [d]) && IsChain(f', [c]) && IsChain(f'', [c]) && IsChain(f'', [d]);
    WellFormedIff(f);
    WellFormedIff(f');
    WellFormedIff(f'');
  }

  /** The place behind the FATs of the sector of cluster `d`. */
  function Place(g: VolumeGeometry, d: nat): nat {
    Behind(g, ClusterBase(g, d))
  }

  /** A file of the two clusters, read up to its end and sought back to the second of them. */
  ghost function Long(g: VolumeGeometry, c: nat, d: nat, s: Sector): Cursor {
    Cursor(c, 1024, 512, c, ClusterBase(g, d), s, false, [c, d])
  }

  ghost function LongView(g: VolumeGeometry, rest: Disk, c: nat, d: nat): View
    requires Setting(g, rest, c, d)
  {
    View([], [], Entries(g, c, d, d, EndMarkOf(g.fatType)), rest)
  }

  /** The same file cut off at its cursor. */
  ghost function Cut(g: VolumeGeometry, c: nat, d: nat, s: Sector): Cursor {
    Cursor(c, 512, 512, c, ClusterBase(g, d), s, false, [c])
  }

  ghost function CutView(g: VolumeGeometry, rest: Disk, c: nat, d: nat): View
    requires Setting(g, rest, c, d)
  {
    View([], [], Entries(g, c, EndMarkOf(g.fatType), d, 0), rest)
  }

  /** Another file just made, and after 512 bytes have been written to it. */
  ghost function Made(s: Sector): Cursor {
    Cursor(0, 0, 0, 0, 0, s, false, [])
  }

  ghost function Filled(d: nat, s: Sector): Cursor {
    Cursor(d, 512, 512, d, 0, s, false, [d])
  }

  ghost function FilledView(g: VolumeGeometry, rest: Disk, c: nat, d: nat): View
    requires Setting(g, rest, c, d)
  {
    View([], [], Entries(g, c, EndMarkOf(g.fatType), d, EndMarkOf(g.fatType)), rest)
  }

  /** The same after f_lseek to its start, and then f_truncate, which gives the cluster up. */
  ghost function Rewound(d: nat, s: Sector): Cursor {
    Cursor(d, 512, 0, d, 0, s, false, [d])
  }

  ghost function Emptied(d: nat, s: Sector): Cursor {
    Cursor(0, 0, 0, d, 0, s, false, [])
  }

  ghost predicate NoneLeft(v: View) {
    FreeCount(v.table) == 0
  }

  /** The file that was cut off, sought to byte 513 when the cluster was free again. */
  ghost function Regrown(g: VolumeGeometry, c: nat, d: nat, s: Sector): Cursor {
    Cursor(c, 513, 513, d, ClusterBase(g, d), s, false, [c, d])
  }

  lemma Indices()
    ensures SectorOf(511) == 0 && SectorOf(512) == SectorOf(1023) == 1
    ensures ByteIn(512) == 0 && ByteIn(513) == 1 && SectorOf(513) == 1
    ensures ClusterIx(1, 0) == 0 && ClusterIx(1, 1) == 1
  {
    IndexByte(511);
    IndexByte(512);
    IndexByte(513);
    IndexByte(1023);
  }

  lemma ProperPair(g: VolumeGeometry, c: nat, d: nat)
    requires 2 <= c < g.nFatent && 2 <= d < g.nFatent && c != d
    ensures Proper(g, [c]) && Proper(g, [d]) && Proper(g, [c, d])
  {
    assert [c][..0] == [] && [d][..0] == [] && [c, d][..1] == [c];
  }

  lemma PositionAt(g: VolumeGeometry, c: nat, d: nat, s: Sector)
    requires g.csize == 1 && 2 <= c < g.nFatent && 2 <= d < g.nFatent && c != d
    ensures Position(g, Long(g, c, d, s)) && Position(g, Regrown(g, c, d, s))
  {
    ProperPair(g, c, d);
    Indices();
    PositionIs(g, Long(g, c, d, s));
    PositionIs(g, Regrown(g, c, d, s));
    OneSector(1);
  }

  lemma LongFit(g: VolumeGeometry, rest: Disk, c: nat, d: nat, w: nat)
    requires Setting(g, rest, c, d) && w >= g.sectors
    ensures Place(g, d) < |rest| && Fit(g, LongView(g, rest, c, d), w, Long(g, c, d, rest[Place(g, d)]))
  {
    SectorOfCluster(g, d);
    DataBehind(g, ClusterBase(g, d));
    var v, x := LongView(g, rest, c, d), Long(g, c, d, rest[Place(g, d)]);
    Indices();
    Tables(g, rest, c, d);
    ProperPair(g, c, d);
    RootedIs(g, v.table, w, x.sclust, x.chain);
    CoreIs(g, v, w, x);
    PositionAt(g, c, d, x.buf);
  }

  lemma CutTable(g: VolumeGeometry, c: nat, d: nat, e: nat)
    requires 2 <= c < g.nFatent && 2 <= d < g.nFatent && c != d
    ensures CutOff(Entries(g, c, d, d, e), [c, d], 1, e) == Entries(g, c, e, d, 0)
  {
    var f, f' := Entries(g, c, d, d, e), Entries(g, c, e, d, 0);
    calc {
      CutOff(f, [c, d], 1, e);
      { assert [c, d][1..] == [d]; }
      FreeAll(f[c := e], [d]);
      { assert [d][1..] == []; }
      FreeAll(f[c := e][d := 0], []);
      f[c := e][d := 0];
      f';
    }
  }

  lemma GrownOne(f: seq<nat>, d: nat)
    requires IsCluster(f, d) && f[d] == 0
    ensures Grown(f, [], [d])
  {
    assert [d][..0] == [];
  }

  /** f_truncate of the long file. */
  lemma Truncated(g: VolumeGeometry, rest: Disk, c: nat, d: nat, w: nat, entry: nat)
    requires Setting(g, rest, c, d) && w >= g.sectors && Place(g, d) < |rest|
    ensures var s := rest[Place(g, d)];
            && Acts(g, Truncating, LongView(g, rest, c, d), w, Long(g, c, d, s), entry,
                 CutView(g, rest, c, d), w, Cut(g, c, d, s))
            && Settled(g, Long(g, c, d, s)) && !Tidy(g, Long(g, c, d, s))
  {
    var v, v', x, e := LongView(g, rest, c, d), CutView(g, rest, c, d), Long(g, c, d, rest[Place(g, d)]),
      EndMarkOf(g.fatType);
    LongFit(g, rest, c, d, w);
    SectorOfCluster(g, d);
    Indices();
    Tables(g, rest, c, d);
    assert x.chain[..1] == [c] && x.chain[1..] == [d];
    CutTable(g, c, d, e);
    AfterTruncate(g, v, w, x, e, v', w);
    CutChanged(g, v, w, x, v', w, Cut(g, c, d, x.buf), 1, e);
  }

  lemma MadeFit(g: VolumeGeometry, rest: Disk, c: nat, d: nat, w: nat, s: Sector)
    requires Setting(g, rest, c, d) && w >= g.sectors
    ensures Fit(g, CutView(g, rest, c, d), w, Made(s)) && Contents(g, CutView(g, rest, c, d), Made(s)) == []
  {
    var v := CutView(g, rest, c, d);
    Tables(g, rest, c, d);
    RootedIs(g, v.table, w, 0, []);
    CoreIs(g, v, w, Made(s));
    PositionIs(g, Made(s));
    CoreFacts(g, v, w, Made(s));
  }

  lemma FilledFit(g: VolumeGeometry, rest: Disk, c: nat, d: nat, w: nat, s: Sector)
    requires Setting(g, rest, c, d) && w >= g.sectors && Place(g, d) < |rest|
    ensures Fit(g, FilledView(g, rest, c, d), w, Filled(d, s))
    ensures Contents(g, FilledView(g, rest, c, d), Filled(d, s)) == rest[Place(g, d)]
  {
    var v, x := FilledView(g, rest, c, d), Filled(d, s);
    SectorOfCluster(g, d);
    Indices();
    Tables(g, rest, c, d);
    ProperPair(g, c, d);
    RootedIs(g, v.table, w, d, [d]);
    CoreIs(g, v, w, x);
    PositionIs(g, x);
    FilledBytes(g, rest, d);
    assert Overlaid(g, v.rest, x) == rest;
  }

  lemma FilledBytes(g: VolumeGeometry, rest: Disk, d: nat)
    requires g.csize == 1 && 2 <= d < g.nFatent && |rest| == g.sectors - RestBase(g) && Proper(g, [d])
    ensures Place(g, d) < |rest| && Covers(g, [d], 512) && Bytes(g, rest, [d], 512) == rest[Place(g, d)]
  {
    SectorOfCluster(g, d);
    Indices();
    forall i: nat | i < 512 ensures Bytes(g, rest, [d], 512)[i] == rest[Place(g, d)][i] {
      IndexByte(i);
      BytesAt(g, rest, [d], 512, i);
    }
  }

  lemma WrittenAll(data: Sector)
    ensures Written([], 0, data[..512], data, 512)
  {
    assert data[..512] == data;
    WrittenIs([], 0, data, data, 512);
    forall i: nat | i < 512 ensures Overwrite([], 0, data)[i] == data[i] {
      OverwriteAt([], 0, data, i);
    }
  }

  /** f_write of 512 bytes to the other file, which go straight to the drive. */
  lemma WrittenThrough(g: VolumeGeometry, rest: Disk, c: nat, d: nat, w: nat, s: Sector, data: Sector, entry: nat)
    requires Setting(g, rest, c, d) && w >= g.sectors && Place(g, d) < |rest|
    ensures var v' := FilledView(g, rest[Place(g, d) := data], c, d);
            Acts(g, Writing(data, 512, NoneLeft(v')), CutView(g, rest, c, d), w, Made(s), entry, v', w, Filled(d, s))
  {
    var rest' := rest[Place(g, d) := data];
    var v, x, v', x' := CutView(g, rest, c, d), Made(s), FilledView(g, rest', c, d), Filled(d, s);
    MadeFit(g, rest, c, d, w, s);
    FilledFit(g, rest', c, d, w, s);
    SectorOfCluster(g, d);
    KeptIs(g, v, v', [d]);
    GrownOne(v.table, d);
    GrownChanged(g, v, w, x, v', w, x');
    CachedSame(g, [d], 0);
    WrittenAll(data);
  }

  /** f_lseek of the other file to its start. */
  lemma SoughtBack(g: VolumeGeometry, rest: Disk, c: nat, d: nat, w: nat, s: Sector, entry: nat)
    requires Setting(g, rest, c, d) && w >= g.sectors && Place(g, d) < |rest|
    ensures var v := FilledView(g, rest, c, d);
            && Fit(g, v, w, Rewound(d, s)) && Contents(g, v, Rewound(d, s)) == rest[Place(g, d)]
            && Acts(g, Seeking(0, false, NoneLeft(v)), v, w, Filled(d, s), entry, v, w, Rewound(d, s))
  {
    var v, x, x' := FilledView(g, rest, c, d), Filled(d, s), Rewound(d, s);
    FilledFit(g, rest, c, d, w, s);
    CoreIs(g, v, w, x);
    CoreIs(g, v, w, x');
    PositionIs(g, x');
    ProperPair(g, c, d);
    OwnedSame(g, v, [d]);
    GrownChanged(g, v, w, x, v, w, x');
    CachedSame(g, [d], 0);
  }

  lemma FreedTable(g: VolumeGeometry, c: nat, d: nat, e: nat)
    requires 2 <= c < g.nFatent && 2 <= d < g.nFatent && c != d
    ensures CutOff(Entries(g, c, e, d, e), [d], 0, e) == Entries(g, c, e, d, 0)
  {
    var f := Entries(g, c, e, d, e);
    assert [d][0..] == [d] && [d][1..] == [];
    assert FreeAll(f, [d]) == FreeAll(f[d := 0], []) == f[d := 0];
  }

  /** f_truncate of the other file: the cluster is free again, and its sector holds what that file wrote. */
  lemma GivenUp(g: VolumeGeometry, rest: Disk, c: nat, d: nat, w: nat, s: Sector, entry: nat)
    requires Setting(g, rest, c, d) && w >= g.sectors && Place(g, d) < |rest|
    ensures Acts(g, Truncating, FilledView(g, rest, c, d), w, Rewound(d, s), entry,
              CutView(g, rest, c, d), w, Emptied(d, s))
  {
    var v, v', x, e := FilledView(g, rest, c, d), CutView(g, rest, c, d), Rewound(d, s), EndMarkOf(g.fatType);
    SoughtBack(g, rest, c, d, w, s, entry);
    Tables(g, rest, c, d);
    assert x.chain[..0] == [];
    FreedTable(g, c, d, e);
    AfterTruncate(g, v, w, x, e, v', w);
    CutChanged(g, v, w, x, v', w, Emptied(d, s), 0, e);
  }

  lemma GrownTwo(f: seq<nat>, c: nat, d: nat)
    requires IsCluster(f, d) && f[d] == 0
    ensures Grown(f, [c], [c, d])
  {
    assert [c, d][..1] == [c];
  }

  /** The file that was cut off, when its cache agrees with the drive. */
  lemma TwinFit(g: VolumeGeometry, rest: Disk, c: nat, d: nat, w: nat)
    requires Setting(g, rest, c, d) && w >= g.sectors && Place(g, d) < |rest|
    ensures var s := rest[Place(g, d)];
            && Fit(g, CutView(g, rest, c, d), w, Cut(g, c, d, s))
            && Fit(g, LongView(g, rest, c, d), w, Regrown(g, c, d, s))
            && Extended(Contents(g, CutView(g, rest, c, d), Cut(g, c, d, s)), 513,
                 Contents(g, LongView(g, rest, c, d), Regrown(g, c, d, s)))
  {
    var s, v, v' := rest[Place(g, d)], CutView(g, rest, c, d), LongView(g, rest, c, d);
    var x, x' := Cut(g, c, d, s), Regrown(g, c, d, s);
    Truncated(g, rest, c, d, w, 0);
    SectorOfCluster(g, d);
    Indices();
    Tables(g, rest, c, d);
    ProperPair(g, c, d);
    PositionAt(g, c, d, s);
    RootedIs(g, v'.table, w, c, [c, d]);
    CoreIs(g, v, w, x);
    CoreIs(g, v', w, x');
    BytesPrefix(g, rest, [c, d], 512, 513);
    ShorterChain(g, rest, [c, d], 512);
    assert [c, d][..1] == [c];
  }

  /** f_lseek to byte 513 takes the cluster back. It comes to the sector it has in its cache, which stays as it is. */
  lemma TakenBack(g: VolumeGeometry, rest: Disk, c: nat, d: nat, w: nat, entry: nat)
    requires Setting(g, rest, c, d) && w >= g.sectors && Place(g, d) < |rest|
    ensures var s, v, v' := rest[Place(g, d)], CutView(g, rest, c, d), LongView(g, rest, c, d);
            Acts(g, Seeking(513, false, NoneLeft(v')), v, w, Cut(g, c, d, s), entry, v', w, Regrown(g, c, d, s))
  {
    var s, v, v' := rest[Place(g, d)], CutView(g, rest, c, d), LongView(g, rest, c, d);
    var x, x' := Cut(g, c, d, s), Regrown(g, c, d, s);
    TwinFit(g, rest, c, d, w);
    KeptIs(g, v, v', [c, d]);
    GrownTwo(v.table, c, d);
    GrownChanged(g, v, w, x, v', w, x');
    CachedSame(g, [c, d], x.sect);
  }

  /** On every volume with clusters of one sector: a file of two clusters, whose second one is in its cache, is cut
      off before that one. Another file then writes there, and the first is unfit for use. The other is sought to its
      start and cut off, and f_lseek takes the cluster back: to a file that differs in nothing but the bytes in its
      cache, at which f_lseek does not look, this is an ordinary step. After it the cache and the drive differ with
      nothing to write back, so that the file reads the one or the other as the source happens to read through the
      cache or past it. */
  lemma StaleCache(g: VolumeGeometry, rest: Disk, c: nat, d: nat, w: nat, data: Sector, entry: nat)
    requires Setting(g, rest, c, d) && w >= g.sectors && Place(g, d) < |rest| && data != rest[Place(g, d)]
    ensures var v, x, x' := LongView(g, rest, c, d), Long(g, c, d, rest[Place(g, d)]), Cut(g, c, d, rest[Place(g, d)]);
            && Fit(g, v, w, x) && Settled(g, x) && !Tidy(g, x)
            && Acts(g, Truncating, v, w, x, entry, CutView(g, rest, c, d), w, x')
    ensures var v, y, rest' := CutView(g, rest, c, d), Made(data), rest[Place(g, d) := data];
            && Fit(g, v, w, y) && Apart(Cut(g, c, d, rest[Place(g, d)]), y) &&
            var v' := FilledView(g, rest', c, d);
            && Acts(g, Writing(data, 512, NoneLeft(v')), v, w, y, entry, v', w, Filled(d, data))
            && !Core(g, v', w, Cut(g, c, d, rest[Place(g, d)]))
    ensures var rest' := rest[Place(g, d) := data];
            var v, v', v'' := FilledView(g, rest', c, d), CutView(g, rest', c, d), LongView(g, rest', c, d);
            && Acts(g, Seeking(0, false, NoneLeft(v)), v, w, Filled(d, data), entry, v, w, Rewound(d, data))
            && Acts(g, Truncating, v, w, Rewound(d, data), entry, v', w, Emptied(d, data))
            && Acts(g, Seeking(513, false, NoneLeft(v'')), v', w, Cut(g, c, d, data), entry, v'', w,
                 Regrown(g, c, d, data))
            && Cut(g, c, d, rest[Place(g, d)]) == Cut(g, c, d, data).(buf := rest[Place(g, d)])
            && Regrown(g, c, d, rest[Place(g, d)]) == Regrown(g, c, d, data).(buf := rest[Place(g, d)])
    ensures var v, x := LongView(g, rest[Place(g, d) := data], c, d), Regrown(g, c, d, rest[Place(g, d)]);
            && Position(g, x) && InChain(g, x.chain, x.sect) && !x.dirty
            && v.rest[Behind(g, x.sect)] != x.buf && !Core(g, v, w, x)
  {
    var s, rest' := rest[Place(g, d)], rest[Place(g, d) := data];
    LongFit(g, rest, c, d, w);
    Truncated(g, rest, c, d, w, entry);
    MadeFit(g, rest, c, d, w, data);
    WrittenThrough(g, rest, c, d, w, data, data, entry);
    SoughtBack(g, rest', c, d, w, data, entry);
    GivenUp(g, rest', c, d, w, data, entry);
    TakenBack(g, rest', c, d, w, entry);
    PositionAt(g, c, d, s);
    SectorOfCluster(g, d);
    CoreIs(g, FilledView(g, rest', c, d), w, Cut(g, c, d, s));
    CoreIs(g, LongView(g, rest', c, d), w, Regrown(g, c, d, s));
  }
}
