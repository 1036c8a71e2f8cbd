/** Several open files on one volume: what is done to one leaves the others as they are. */
module FatFiles {
  import opened FatBytes
  import opened FatTable
  import opened FatVolume
  import opened FatChain
  import opened FatAlloc
  import opened FatLayout
  import opened FatCursor
  import opened FatApart
  import opened FatState
  import opened FatSeek
  import opened FatEntry
  import opened FatFile

  /** The cached sector, if any, is one of the file's. Only f_truncate can leave one there that is not. */
  ghost predicate Settled(g: VolumeGeometry, y: Cursor) {
    y.sect == 0 || InChain(g, y.chain, y.sect)
  }

  /** Two chains of a well-formed FAT from different first clusters have no cluster in common. */
  lemma ChainsApart(f: seq<nat>, a: nat, chain: seq<nat>, b: nat, chain': seq<nat>, i: nat)
    requires && WellFormed(f) && Linked(f, a, chain) && Linked(f, b, chain') && (a == 0 || b == 0 || a != b)
             && i < |chain'|
    ensures chain'[i] !in chain
  {
    forall k | 0 <= k < |chain| ensures chain[k] != chain'[i] {
      HeadsDisjoint(f, chain, chain', k, i);
    }
  }

  /** No cluster of the changed file has come to link to the first cluster of another. */
  lemma StillHead(f: seq<nat>, f': seq<nat>, own: seq<nat>, a: nat, chain: seq<nat>, b: nat)
    requires |f'| == |f| && IsHead(f, b) && IsCluster(f, b) && b !in own
    requires forall c: nat :: c < |f| && c !in own ==> f'[c] == f[c]
    requires Linked(f', a, chain) && (forall c :: c in chain ==>
               c in own) && forall c: nat :: c in own && c !in chain ==> c < |f| && f'[c] == 0
    ensures IsHead(f', b)
  {
    forall d | 2 <= d < |f'| && f'[d] == b ensures false {
      if d in own {
        if d in chain {
          var k :| 0 <= k < |chain| && chain[k] == d;
          NextInChain(f', chain, k);
        }
      }
    }
  }

  lemma NextInChain(f: seq<nat>, chain: seq<nat>, k: nat)
    requires IsChain(f, chain) && k < |chain|
    ensures IsCluster(f, chain[k]) && (f[chain[k]] >= |f| || f[chain[k]] in chain)
  {
    if k + 1 < |chain| {
      assert f[chain[k]] == chain[k + 1];
    }
  }

  /** What has been done to one file, `a` before and `a'` after: only clusters in `own` have changed, of which those
      it does not hold any more are free. */
  ghost predicate Changed(g: VolumeGeometry, v: View, w: nat, a: Cursor, v': View, w': nat, a': Cursor, own: seq<nat>) {
    && Core(g, v, w, a) && Core(g, v', w', a') && Owned(g, v, v', a.chain, own) && WindowMoved(g, w, w')
    && (forall c :: c in a'.chain ==> c in own)
    && forall c: nat :: c in own && c !in a'.chain ==> c < |v'.table| && v'.table[c] == 0
  }

  /** Whatever is done to one file, any other holds what it held. */
  lemma OtherIntact(g: VolumeGeometry, v: View, w: nat, a: Cursor, v': View, w': nat, own: seq<nat>, y: Cursor)
    requires Core(g, v, w, a) && Owned(g, v, v', a.chain, own) && WindowMoved(g, w, w')
    requires Core(g, v, w, y) && (a.sclust == 0 || y.sclust == 0 || a.sclust != y.sclust)
    ensures Intact(g, v', w', y) && Contents(g, v', y) == Contents(g, v, y)
    ensures forall i :: 0 <= i < |y.chain| ==> y.chain[i] !in a.chain
    ensures y.sclust != 0 ==> IsChain(v'.table, y.chain) && y.chain[0] == y.sclust
  {
    CoreIs(g, v, w, y);
    CoreIs(g, v, w, a);
    RootedIs(g, v.table, w, a.sclust, a.chain);
    RootedIs(g, v.table, w, y.sclust, y.chain);
    forall i: nat | i < |y.chain| ensures y.chain[i] !in a.chain {
      ChainsApart(v.table, a.sclust, a.chain, y.sclust, y.chain, i);
    }
    OtherFile(g, v, v', w, a.chain, own, y);
    IntactIs(g, v', w, y);
    AfterPeek(g, v', w, y, w');
    IntactIs(g, v', w', y);
  }

  /** And if that went well, any other file is in use as before. */
  lemma OtherStays(g: VolumeGeometry, v: View, w: nat, a: Cursor, v': View, w': nat, a': Cursor, own: seq<nat>,
      y: Cursor)
    requires Changed(g, v, w, a, v', w', a', own)
    requires Core(g, v, w, y) && Settled(g, y) && (a.sclust == 0 || y.sclust == 0 || a.sclust != y.sclust)
    ensures Core(g, v', w', y) && Contents(g, v', y) == Contents(g, v, y)
  {
    OtherIntact(g, v, w, a, v', w', own, y);
    CoreIs(g, v, w, y);
    RootedIs(g, v.table, w, y.sclust, y.chain);
    StillRooted(g, v, w, a, v', w', a', own, y);
    StillClean(g, v, v', a.chain, own, y);
    IntactIs(g, v', w', y);
    CoreIs(g, v', w', y);
  }

  lemma StillRooted(g: VolumeGeometry, v: View, w: nat, a: Cursor, v': View, w': nat, a': Cursor, own: seq<nat>,
      y: Cursor)
    requires Changed(g, v, w, a, v', w', a', own) && |v.table| == g.nFatent && Linked(v.table, y.sclust, y.chain)
    requires forall i :: 0 <= i < |y.chain| ==> y.chain[i] !in a.chain
    requires y.sclust != 0 ==> IsChain(v'.table, y.chain) && y.chain[0] == y.sclust
    ensures Rooted(g, v'.table, w', y.sclust, y.chain)
  {
    CoreIs(g, v', w', a');
    RootedIs(g, v'.table, w', a'.sclust, a'.chain);
    RootedIs(g, v'.table, w', y.sclust, y.chain);
    KeptIs(g, v, v', own);
    if y.sclust != 0 {
      StillApart(v.table, a.chain, own, y.chain, 0);
      StillHead(v.table, v'.table, own, a'.sclust, a'.chain, y.sclust);
    }
  }

  lemma StillClean(g: VolumeGeometry, v: View, v': View, chain: seq<nat>, own: seq<nat>, y: Cursor)
    requires Owned(g, v, v', chain, own) && Clean(g, v.rest, y) && Settled(g, y) && Linked(v.table, y.sclust, y.chain)
    requires forall i :: 0 <= i < |y.chain| ==> y.chain[i] !in chain
    ensures Clean(g, v'.rest, y)
  {
    KeptIs(g, v, v', own);
    if !y.dirty && y.sect != 0 {
      DataBehind(g, y.sect);
      var i :| 0 <= i < |y.chain| && y.chain[i] == ClusterAt(g, y.sect);
      StillApart(v.table, chain, own, y.chain, i);
    }
  }

  /** A file that grows, or is only read. */
  lemma GrownChanged(g: VolumeGeometry, v: View, w: nat, a: Cursor, v': View, w': nat, a': Cursor)
    requires Core(g, v, w, a) && Core(g, v', w', a') && Owned(g, v, v', a.chain, a'.chain) && WindowMoved(g, w, w')
    ensures Changed(g, v, w, a, v', w', a', a'.chain)
  {
  }

  /** A file that is cut off. */
  lemma CutChanged(g: VolumeGeometry, v: View, w: nat, a: Cursor, v': View, w': nat, a': Cursor, k: nat, e: nat)
    requires Core(g, v, w, a) && Core(g, v', w', a') && Kept(g, v, v', a.chain) && WindowMoved(g, w, w')
    requires k <= |a.chain| && a'.chain == a.chain[..k] && v'.table == CutOff(v.table, a.chain, k, e)
    ensures Changed(g, v, w, a, v', w', a', a.chain)
  {
    CoreIs(g, v, w, a);
    RootedIs(g, v.table, w, a.sclust, a.chain);
    forall c: nat | c in a.chain && c !in a'.chain ensures c < |v'.table| && v'.table[c] == 0 {
      var i :| 0 <= i < |a.chain| && a.chain[i] == c;
      assert i >= k;
      assert c == a.chain[k..][i - k];
      ChainAllocated(v.table, a.chain, i);
      CutOffAt(v.table, a.chain, k, e, c);
    }
  }

  /** The chains of two files in use. */
  lemma FilesApart(g: VolumeGeometry, v: View, w: nat, a: Cursor, y: Cursor, s: nat)
    requires Core(g, v, w, a) && Core(g, v, w, y) && (a.sclust == 0 || y.sclust == 0 || a.sclust != y.sclust)
    ensures InChain(g, a.chain, s) ==> !InChain(g, y.chain, s)
    ensures a.dirty ==> InChain(g, a.chain, a.sect) && RestBase(g) <= a.sect
  {
    CoreIs(g, v, w, a);
    CoreIs(g, v, w, y);
    RootedIs(g, v.table, w, a.sclust, a.chain);
    RootedIs(g, v.table, w, y.sclust, y.chain);
    if InChain(g, a.chain, s) && InChain(g, y.chain, s) {
      var i: nat :| i < |y.chain| && y.chain[i] == ClusterAt(g, s);
      ChainsApart(v.table, a.sclust, a.chain, y.sclust, y.chain, i);
    }
    if a.dirty {
      DataBehind(g, a.sect);
    }
  }

  /** A sector of neither the file nor its cache replaced. */
  lemma SectorReplaced(g: VolumeGeometry, v: View, w: nat, y: Cursor, s: nat, data: Sector)
    requires Core(g, v, w, y) && Settled(g, y) && RestBase(g) <= s < g.sectors && !InChain(g, y.chain, s)
    requires s != 0
    ensures Behind(g, s) < |v.rest|
    ensures var v' := v.(rest := v.rest[Behind(g, s) := data]);
            Core(g, v', w, y) && Contents(g, v', y) == Contents(g, v, y)
  {
    CoreIs(g, v, w, y);
    AfterElsewhere(g, v, w, y, s, data, v.front);
  }

  /** What f_sync on another file does: it writes back its dirty sector, brings its directory entry up to date, and
      moves the window. */
  lemma SyncedStays(g: VolumeGeometry, v: View, w: nat, a: Cursor, s: nat, d1: Sector, d2: Sector, v': View, w': nat,
      y: Cursor)
    requires && Core(g, v, w, a) && Core(g, v, w, y) && Settled(g, y)
             && (a.sclust == 0 || y.sclust == 0 || a.sclust != y.sclust)
    requires RestBase(g) <= s < g.sectors && !InChain(g, y.chain, s) && (a.dirty ==> Behind(g, a.sect) < |v.rest|)
    requires Behind(g, s) < |v.rest| && v'.table == v.table
    requires v'.rest == (if a.dirty then v.rest[Behind(g, a.sect) := d1] else v.rest)[Behind(g, s) := d2]
    requires !InChain(g, y.chain, w') && WindowInUse(g, v.table, w')
    ensures Core(g, v', w', y) && Contents(g, v', y) == Contents(g, v, y)
  {
    var v1 := if a.dirty then v.(rest := v.rest[Behind(g, a.sect) := d1]) else v;
    FilesApart(g, v, w, a, y, a.sect);
    if a.dirty {
      SectorReplaced(g, v, w, y, a.sect, d1);
    }
    SectorReplaced(g, v1, w, y, s, d2);
    var v2 := v1.(rest := v1.rest[Behind(g, s) := d2]);
    CoreFacts(g, v2, w, y);
    AfterVisit(g, v2, w, y, w');
    CoreIs(g, v2, w, y);
    CoreIs(g, v2, w', y);
    CoreIs(g, v', w', y);
  }

  /** Only two sectors have changed. */
  lemma TwoReplaced(rest: Disk, rest': Disk, dirty: bool, i: nat, b: nat)
    requires |rest'| == |rest| && b < |rest| && (dirty ==> i < |rest|)
    requires forall k: nat :: k < |rest| && k != b && !(dirty && k == i) ==> rest'[k] == rest[k]
    ensures rest' == (if dirty then rest[i := rest'[i]] else rest)[b := rest'[b]]
  {
  }

  lemma DirtyBehind(g: VolumeGeometry, v: View, w: nat, x: Cursor, s: nat)
    requires Core(g, v, w, x) && RestBase(g) <= s < g.sectors
    ensures Behind(g, s) < |v.rest| && (x.dirty ==> Behind(g, x.sect) < |v.rest|)
  {
    CoreIs(g, v, w, x);
    if x.dirty {
      DataBehind(g, x.sect);
    }
  }

  /** The window f_sync leaves is on no sector of another file. */
  lemma WindowStays(g: VolumeGeometry, v: View, w: nat, v': View, w': nat, a': Cursor, s: nat, y: Cursor)
    requires Core(g, v, w, y) && Core(g, v', w', a') && v'.table == v.table && !InChain(g, y.chain, s)
    requires w' == w || w' >= g.sectors || w' == s || w' < g.fatbase
    ensures !InChain(g, y.chain, w') && WindowInUse(g, v.table, w')
  {
    CoreIs(g, v, w, y);
    CoreIs(g, v', w', a');
    RootedIs(g, v'.table, w', a'.sclust, a'.chain);
  }

  /** What f_sync has done to the sectors, whether it went well or not. */
  lemma SyncSectors(a: File, rest: Disk, x: Cursor, tm: nat)
    requires a.fs.Valid() && a.EntryPlaced() && Behind(a.fs.g, a.dirSect) < |rest|
    requires x.dirty ==> Behind(a.fs.g, x.sect) < |rest|
    requires a.fs.Image().rest == rest || a.Saved(rest, x, a.fs.Image().rest, tm)
    ensures var g, rest' := a.fs.g, a.fs.Image().rest;
            && |rest'| == |rest|
            && rest' == (if x.dirty then rest[Behind(g, x.sect) := rest'[Behind(g, x.sect)]] else rest)
                          [Behind(g, a.dirSect) := rest'[Behind(g, a.dirSect)]]
  {
    TwoReplaced(rest, a.fs.Image().rest, x.dirty, Behind(a.fs.g, x.sect), Behind(a.fs.g, a.dirSect));
  }

  // What has been written is read back.

  /** Where the drive was full there is no byte of the file. */
  lemma FullBehind(g: VolumeGeometry, v: View, w: nat, x: Cursor, p: nat, c: nat)
    requires Core(g, v, w, x) && (if x.chain == [] then p == 0 else Full(g, x, p, c))
    ensures x.objsize <= p
  {
    CoreIs(g, v, w, x);
    if p < x.objsize {
      CoversByte(g, x.chain, x.objsize, p);
    }
  }

  /** What lies where something has been written. */
  lemma WrittenThere(b: seq<byte>, p: nat, data: seq<byte>, b': seq<byte>, p': nat)
    requires Written(b, p, data, b', p')
    ensures p' == p + |data| <= |b'| && b'[p..p'] == data
  {
    WrittenIs(b, p, data, b', p');
    forall i: nat | i < |data| ensures b'[p + i] == data[i] {
      OverwriteAt(b, p, data, p + i);
    }
  }

  /** f_write, f_lseek back to where that began, and f_read of as many bytes give the bytes written. */
  method WriteThenRead(f: File, data: seq<byte>) returns (res: FResult, bw: nat, got: seq<byte>)
    requires f.Valid() && f.canRead && |data| < 0x1_0000_0000
    modifies f, f.fs
    ensures f.Valid() && bw <= |data| && (res == FR_OK ==> got == data[..bw])
    ensures res == FR_OK ==> old(f.fptr) <= |old(f.Data())|
    ensures res == FR_OK ==> f.Data() == Overwrite(old(f.Data()), old(f.fptr), data[..bw])
  {
    var start := f.fptr;
    got := [];
    ghost var own, x;
    ghost var b := f.Data();
    res, bw, own := f.Write(data);
    if res != FR_OK { return; }
    WrittenThere(b, start, data[..bw], f.Data(), f.fptr);
    WrittenIs(b, start, data[..bw], f.Data(), f.fptr);
    ghost var now := f.Data();
    IntactFacts(f.fs.g, f.fs.Image(), f.fs.winsect, f.Cur());
    res, own := f.Seek(start);
    if res != FR_OK { return; }
    x := f.Cur();
    CoreFacts(f.fs.g, f.fs.Image(), f.fs.winsect, x);
    if x.fptr < start {
      FullBehind(f.fs.g, f.fs.Image(), f.fs.winsect, x, x.fptr, x.clust);
    }
    assert f.Data() == now;
    res, got := f.Read(bw);
  }

  /** The file as any volume on the same drive shows it. */
  lemma OnDrive(g: VolumeGeometry, v: View, w: nat, x: Cursor, s: nat)
    requires Core(g, v, w, x) && !x.dirty && Placed(g, v.table, x.chain, x.sect, s)
    ensures Rooted(g, v.table, s, x.sclust, x.chain) && !InChain(g, x.chain, s)
    ensures Proper(g, x.chain) && Covers(g, x.chain, x.objsize)
    ensures x.objsize < 0x1_0000_0000 && |v.rest| == g.sectors - RestBase(g)
    ensures Contents(g, v, x) == Bytes(g, v.rest, x.chain, x.objsize)
  {
    CoreIs(g, v, w, x);
    PlacedIs(g, v.table, x.chain, x.sect, s);
    RootedIs(g, v.table, w, x.sclust, x.chain);
    RootedIs(g, v.table, s, x.sclust, x.chain);
  }
}
