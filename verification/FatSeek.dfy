/** Walking along a cluster chain to a byte offset: what f_lseek relies on. */
module FatSeek {
  import opened FatBytes
  import opened FatTable
  import opened FatVolume
  import opened FatChain
  import opened FatAlloc
  import opened FatLayout
  import opened FatCursor
  import opened FatApart
  import opened FatState

  /** Byte `p` of the file is the first of cluster `c`. */
  ghost predicate OnTrack(g: VolumeGeometry, x: Cursor, p: nat, c: nat) {
    AtStart(g, p) && ClusterOf(g, p) < |x.chain| && c == x.chain[ClusterOf(g, p)]
  }

  lemma StartBefore(m: nat, i: nat, o: nat)
    requires m > 0 && o / m >= i / m
    ensures i - i % m <= o
  {
    MulMono(m, i / m, o / m);
    assert i == m * (i / m) + i % m && o == m * (o / m) + o % m;
  }

  /** The shortcut: from the current cluster on, if the offset sought is not before it. */
  lemma TrackHere(g: VolumeGeometry, v: View, w: nat, x: Cursor, ofs: nat)
    requires Core(g, v, w, x) && Position(g, x) && x.fptr > 0 && ofs > 0
    requires g.csize * 512 > 0 && (ofs - 1) / (g.csize * 512) >= (x.fptr - 1) / (g.csize * 512)
    ensures var p := (x.fptr - 1) - (x.fptr - 1) % (g.csize * 512); 0 <= p < ofs && OnTrack(g, x, p, x.clust)
    ensures x.clust != 0
  {
    CoreIs(g, v, w, x);
    PositionIs(g, x);
    StartOf(g, x.fptr - 1);
    StartBefore(g.csize * 512, x.fptr - 1, ofs - 1);
    ProperAt(g, x.chain, ClusterOf(g, x.fptr - 1));
  }

  lemma NeedsChain(g: VolumeGeometry, v: View, w: nat, x: Cursor)
    requires Core(g, v, w, x) && x.objsize > 0
    ensures x.sclust != 0
  {
    CoreIs(g, v, w, x);
    RootedIs(g, v.table, w, x.sclust, x.chain);
  }

  lemma TrackHead(g: VolumeGeometry, v: View, w: nat, x: Cursor)
    requires Core(g, v, w, x) && x.sclust != 0
    ensures OnTrack(g, x, 0, x.sclust)
  {
    CoreIs(g, v, w, x);
    RootedIs(g, v.table, w, x.sclust, x.chain);
    IndexByte(0);
  }

  /** The next cluster of the track is the one linked to, or the chain ends there. */
  lemma TrackOn(g: VolumeGeometry, v: View, w: nat, x: Cursor, p: nat, c: nat)
    requires Core(g, v, w, x) && OnTrack(g, x, p, c)
    ensures c >= 2 && Stretchable(v.table, x.chain, c) && IsCluster(v.table, c)
    ensures if v.table[c] < |v.table| then OnTrack(g, x, p + g.csize * 512, v.table[c])
            else AtStart(g, p + g.csize * 512) && ClusterOf(g, p + g.csize * 512) == |x.chain| && c == Last(x.chain)
  {
    CoreIs(g, v, w, x);
    RootedIs(g, v.table, w, x.sclust, x.chain);
    NextStart(g, p);
    ProperAt(g, x.chain, ClusterOf(g, p));
    var k := ClusterOf(g, p);
    if k + 1 < |x.chain| {
      ProperAt(g, x.chain, k + 1);
    }
  }

  lemma TrackNew(g: VolumeGeometry, x: Cursor, p: nat, r: nat)
    requires AtStart(g, p) && ClusterOf(g, p) == |x.chain|
    ensures OnTrack(g, Longer(x, r), p, r)
  {
  }

  /** Within the file the chain goes on. */
  lemma TrackInside(g: VolumeGeometry, v: View, w: nat, x: Cursor, p: nat, c: nat)
    requires Core(g, v, w, x) && OnTrack(g, x, p, c) && p + g.csize * 512 < x.objsize
    ensures IsCluster(v.table, c) && v.table[c] < |v.table|
  {
    TrackOn(g, v, w, x, p, c);
    CoreIs(g, v, w, x);
    CoversByte(g, x.chain, x.objsize, p + g.csize * 512);
  }

  /** `b'` begins with `b` and is long enough for `p`. */
  ghost predicate Extended(b: seq<byte>, p: nat, b': seq<byte>) {
    b <= b' && |b'| == Max(|b|, p)
  }

  /** Neither the cursor nor the current cluster matters to what the file holds. */
  lemma IntactAnywhere(g: VolumeGeometry, v: View, w: nat, x: Cursor, x': Cursor)
    requires Intact(g, v, w, x) && x' == x.(fptr := x'.fptr, clust := x'.clust)
    ensures Intact(g, v, w, x') && Contents(g, v, x') == Contents(g, v, x)
  {
    IntactIs(g, v, w, x);
    IntactIs(g, v, w, x');
  }

  /** Where the cursor comes to rest. */
  ghost function Landed(x: Cursor, p: nat, c: nat): Cursor {
    x.(fptr := p, clust := c, objsize := Max(x.objsize, p))
  }

  lemma LandedState(g: VolumeGeometry, v: View, w: nat, x: Cursor, p: nat, c: nat)
    requires Core(g, v, w, x) && Covers(g, x.chain, p) && p < 0x1_0000_0000
    ensures Core(g, v, w, Landed(x, p, c)) && Extended(Contents(g, v, x), p, Contents(g, v, Landed(x, p, c)))
  {
    CoreIs(g, v, w, x);
    CoreIs(g, v, w, Landed(x, p, c));
    Sought(g, v.rest, v.table, w, x, p, c);
  }

  lemma TrackEnd(g: VolumeGeometry, v: View, w: nat, x: Cursor, p: nat, c: nat, ofs: nat)
    requires Core(g, v, w, x) && OnTrack(g, x, p, c) && 0 < ofs <= g.csize * 512 && p + ofs < 0x1_0000_0000
    ensures var x' := Landed(x, p + ofs, c);
            && Core(g, v, w, x') && Extended(Contents(g, v, x), p + ofs, Contents(g, v, x'))
            && ByteIn(p + ofs) == ByteIn(ofs)
            && (if ByteIn(ofs) == 0 then Position(g, x')
                else Clst2Sect(g, c) > 0 && Here(g, x', Clst2Sect(g, c) + SectorOf(ofs)))
  {
    WithinCluster(g, p, ofs - 1);
    LandedState(g, v, w, x, p + ofs, c);
    SamePlace(p, ofs);
    if ByteIn(ofs) != 0 {
      NotFull(g, ofs);
      WithinCluster(g, p, ofs);
      SectorFound(g, v, w, Landed(x, p + ofs, c));
    } else {
      LandedOnSector(g, v, w, x, p + ofs, c);
    }
  }

  lemma SamePlace(p: nat, ofs: nat)
    requires ByteIn(p) == 0
    ensures ByteIn(p + ofs) == ByteIn(ofs)
  {
    IndexByte(p);
    IndexByte(ofs);
    IndexByte(p + ofs);
  }

  lemma NotFull(g: VolumeGeometry, ofs: nat)
    requires ofs <= g.csize * 512 && ByteIn(ofs) != 0
    ensures ofs < g.csize * 512
  {
    SectorAt(g.csize, 0);
  }

  lemma LandedOnSector(g: VolumeGeometry, v: View, w: nat, x: Cursor, p: nat, c: nat)
    requires && Core(g, v, w, x) && p > 0 && ByteIn(p) == 0 && ClusterOf(g, p - 1) < |x.chain|
             && c == x.chain[ClusterOf(g, p - 1)]
    ensures Position(g, Landed(x, p, c))
  {
    CoreIs(g, v, w, x);
    PositionIs(g, Landed(x, p, c));
  }

  /** Within a sector: the cursor is in place once its sector is the cached one. */
  lemma HerePosition(g: VolumeGeometry, x: Cursor)
    requires Here(g, x, x.sect) && ByteIn(x.fptr) != 0
    ensures Position(g, x)
  {
    HereIs(g, x, x.sect);
    PositionIs(g, x);
    IndexByte(0);
    if x.fptr > 0 {
      SectorBefore(x.fptr);
    }
  }

  /** Byte `p` would be the first behind the chain, whose last cluster is `c`. */
  ghost predicate Full(g: VolumeGeometry, x: Cursor, p: nat, c: nat) {
    x.chain != [] && AtStart(g, p) && ClusterOf(g, p) == |x.chain| && c == Last(x.chain)
  }

  /** The drive is full: the cursor comes to rest at the end of the last cluster. */
  lemma TrackFull(g: VolumeGeometry, v: View, w: nat, x: Cursor, p: nat, c: nat)
    requires Core(g, v, w, x) && Full(g, x, p, c) && p < 0x1_0000_0000
    ensures var x' := Landed(x, p, c);
            Core(g, v, w, x') && Position(g, x') && Extended(Contents(g, v, x), p, Contents(g, v, x'))
  {
    IndexByte(0);
    if p > 0 {
      SectorBefore(p);
      NextSector(g.csize, SectorOf(p - 1));
    }
    CoreIs(g, v, w, x);
    LandedState(g, v, w, x, p, c);
    PositionIs(g, Landed(x, p, c));
  }

  lemma TrackNone(g: VolumeGeometry, v: View, w: nat, x: Cursor, c: nat)
    requires Core(g, v, w, x)
    ensures var x' := Landed(x, 0, c);
            Core(g, v, w, x') && Position(g, x') && Extended(Contents(g, v, x), 0, Contents(g, v, x'))
  {
    CoreFacts(g, v, w, x);
    LandedState(g, v, w, x, 0, c);
    CoreIs(g, v, w, x);
    PositionIs(g, Landed(x, 0, c));
    IndexByte(0);
  }

  // The same cluster and sector as by walking from the first cluster.

  /** `k` links on from cluster `c`. */
  function Walk(f: seq<nat>, c: nat, k: nat): nat {
    if k == 0 then c else var d := Walk(f, c, k - 1); if d < |f| then f[d] else d
  }

  lemma {:induction false} WalkChain(f: seq<nat>, s: seq<nat>, k: nat)
    requires IsChain(f, s) && k < |s|
    ensures Walk(f, s[0], k) == s[k]
  {
    if k > 0 {
      WalkChain(f, s, k - 1);
    }
  }

  /** Wherever the cursor came from, the current cluster and sector are the ones found by walking from the start. */
  lemma PositionIsWalk(g: VolumeGeometry, v: View, w: nat, x: Cursor)
    requires Core(g, v, w, x) && Position(g, x) && x.fptr > 0
    ensures x.clust == Walk(v.table, x.sclust, ClusterOf(g, x.fptr - 1))
    ensures ByteIn(x.fptr) != 0 ==> x.sect == Clst2Sect(g, x.clust) + SectorIn(g.csize, SectorOf(x.fptr))
  {
    CoreIs(g, v, w, x);
    PositionIs(g, x);
    RootedIs(g, v.table, w, x.sclust, x.chain);
    WalkChain(v.table, x.chain, ClusterOf(g, x.fptr - 1));
    if ByteIn(x.fptr) != 0 {
      SameCluster(g, x);
      SectorFound(g, v, w, x);
      HereIs(g, x, Clst2Sect(g, x.clust) + SectorIn(g.csize, SectorOf(x.fptr)));
    }
  }
}
