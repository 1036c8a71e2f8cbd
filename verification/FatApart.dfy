/** What an operation on one file leaves alone: everything outside its own clusters. */
module FatApart {
  import opened FatBytes
  import opened FatTable
  import opened FatVolume
  import opened FatChain
  import opened FatAlloc
  import opened FatLayout
  import opened FatCursor

  /** From `v` to `v'` only FAT entries and sectors of clusters in `chain` have changed. The countdown only keeps
      proofs from looking inside where KeptIs is not called. */
  ghost predicate Kept(g: VolumeGeometry, v: View, v': View, chain: seq<nat>) {
    KeptAfter(g, v, v', chain, |chain|)
  }

  ghost predicate KeptAfter(g: VolumeGeometry, v: View, v': View, chain: seq<nat>, countdown: nat) {
    if countdown > 0 then KeptAfter(g, v, v', chain, countdown - 1) else KeptOpen(g, v, v', chain)
  }

  ghost predicate KeptOpen(g: VolumeGeometry, v: View, v': View, chain: seq<nat>) {
    && v'.front == v.front && |v'.table| == |v.table| && |v'.rest| == |v.rest|
    && (forall c: nat :: c < |v.table| && c !in chain ==> v'.table[c] == v.table[c])
    && (forall b: nat :: b < |v.rest| && !InChain(g, chain, b + RestBase(g)) ==> v'.rest[b] == v.rest[b])
  }

  lemma {:induction false} KeptAfterIs(g: VolumeGeometry, v: View, v': View, chain: seq<nat>, countdown: nat)
    ensures KeptAfter(g, v, v', chain, countdown) <==> KeptOpen(g, v, v', chain)
  {
    if countdown > 0 {
      KeptAfterIs(g, v, v', chain, countdown - 1);
    }
  }

  lemma KeptIs(g: VolumeGeometry, v: View, v': View, chain: seq<nat>)
    ensures Kept(g, v, v', chain) <==> KeptOpen(g, v, v', chain)
  {
    KeptAfterIs(g, v, v', chain, |chain|);
  }

  lemma KeptSame(g: VolumeGeometry, v: View, chain: seq<nat>)
    ensures Kept(g, v, v, chain)
  {
    KeptIs(g, v, v, chain);
  }

  lemma KeptTwice(g: VolumeGeometry, v: View, v': View, v'': View, chain: seq<nat>, chain': seq<nat>)
    requires Kept(g, v, v', chain) && Kept(g, v', v'', chain') && chain <= chain'
    ensures Kept(g, v, v'', chain')
  {
    KeptIs(g, v, v', chain);
    KeptIs(g, v', v'', chain');
    KeptIs(g, v, v'', chain');
    forall c: nat | c in chain ensures c in chain' {
      var i :| 0 <= i < |chain| && chain[i] == c;
      assert chain'[i] == c;
    }
  }

  /** A sector of the file written. */
  lemma KeptSector(g: VolumeGeometry, v: View, chain: seq<nat>, s: nat, data: Sector)
    requires InChain(g, chain, s) && Behind(g, s) < |v.rest|
    ensures Kept(g, v, v.(rest := v.rest[Behind(g, s) := data]), chain)
  {
    DataBehind(g, s);
    KeptIs(g, v, v.(rest := v.rest[Behind(g, s) := data]), chain);
  }

  /** A run of sectors of one of its clusters written. */
  lemma KeptRun(g: VolumeGeometry, v: View, chain: seq<nat>, j: nat, ss: seq<Sector>)
    requires Proper(g, chain) && HasSector(g, chain, j) && SectorIn(g.csize, j) + |ss| <= g.csize
    requires |v.rest| == g.sectors - RestBase(g) && Lba(g, chain, j) + |ss| <= |v.rest|
    ensures Kept(g, v, v.(rest := PutRun(v.rest, Lba(g, chain, j), ss)), chain)
  {
    var a := Lba(g, chain, j);
    var v' := v.(rest := PutRun(v.rest, a, ss));
    KeptIs(g, v, v', chain);
    forall b: nat | b < |v.rest| && !InChain(g, chain, b + RestBase(g)) ensures v'.rest[b] == v.rest[b] {
      PutRunAt(v.rest, a, ss, b);
      if a <= b < a + |ss| {
        LbaRun(g, chain, j, b - a);
        LbaCluster(g, chain, j + (b - a));
      }
    }
  }

  /** A free cluster appended. */
  lemma KeptStretch(g: VolumeGeometry, v: View, v': View, chain: seq<nat>, n: nat, e: nat)
    requires IsCluster(v.table, n) && (Last(chain) == 0 || IsCluster(v.table, Last(chain)))
    requires v' == v.(fat := v'.fat, table := Appended(v.table, Last(chain), n, e))
    ensures Kept(g, v, v', chain + [n])
  {
    KeptIs(g, v, v', chain + [n]);
  }

  /** `chain'` is `chain` with clusters behind it that were free in `f`. */
  ghost predicate Grown(f: seq<nat>, chain: seq<nat>, chain': seq<nat>)
    decreases |chain'|
  {
    || chain' == chain
    || (|chain'| > |chain| && var m := |chain'| - 1;
        && Grown(f, chain, chain'[..m])
        && IsCluster(f, chain'[m]) && f[chain'[m]] == 0)
  }

  lemma {:induction false} GrownAt(f: seq<nat>, chain: seq<nat>, chain': seq<nat>, i: nat)
    requires Grown(f, chain, chain') && i < |chain'|
    ensures |chain| <= |chain'|
    ensures if i < |chain| then chain'[i] == chain[i] else IsCluster(f, chain'[i]) && f[chain'[i]] == 0
    decreases |chain'|
  {
    if chain' != chain && i < |chain'| - 1 {
      GrownAt(f, chain, chain'[..|chain'| - 1], i);
    } else if chain' != chain && |chain'| - 1 > |chain| {
      GrownAt(f, chain, chain'[..|chain'| - 1], 0);
    }
  }

  /** Only the file's own clusters, and clusters that were free and are now its own, have changed. */
  ghost predicate Owned(g: VolumeGeometry, v: View, v': View, chain: seq<nat>, chain': seq<nat>) {
    Kept(g, v, v', chain') && Grown(v.table, chain, chain')
  }

  lemma OwnedSame(g: VolumeGeometry, v: View, chain: seq<nat>)
    ensures Owned(g, v, v, chain, chain)
  {
    KeptSame(g, v, chain);
  }

  lemma {:induction false} GrownTwice(g: VolumeGeometry, v: View, v': View, chain: seq<nat>, chain': seq<nat>,
      chain'': seq<nat>)
    requires Owned(g, v, v', chain, chain') && Grown(v'.table, chain', chain'')
    requires forall i :: |chain'| <= i < |chain''| ==> chain''[i] !in chain'
    ensures Grown(v.table, chain, chain'') && chain' <= chain''
    decreases |chain''|
  {
    if chain'' != chain' {
      var m := |chain''| - 1;
      var init := chain''[..m];
      assert chain''[m] !in chain';
      forall i | |chain'| <= i < m ensures init[i] !in chain' {
        assert init[i] == chain''[i];
      }
      GrownTwice(g, v, v', chain, chain', init);
      KeptIs(g, v, v', chain');
      if |chain'| > 0 {
        GrownAt(v.table, chain, chain', 0);
      }
    }
  }

  lemma OwnedTwice(g: VolumeGeometry, v: View, v': View, v'': View, chain: seq<nat>, chain': seq<nat>,
      chain'': seq<nat>)
    requires Owned(g, v, v', chain, chain') && Owned(g, v', v'', chain', chain'')
    requires forall i :: |chain'| <= i < |chain''| ==> chain''[i] !in chain'
    ensures Owned(g, v, v'', chain, chain'')
  {
    GrownTwice(g, v, v', chain, chain', chain'');
    KeptTwice(g, v, v', v'', chain', chain'');
  }

  /** The file has sector `sect'` in its cache where it had `sect`: the same one, or one of `chain`. The countdown
      only keeps proofs from looking inside where CachedIs is not called. */
  ghost predicate Cached(g: VolumeGeometry, chain: seq<nat>, sect: nat, sect': nat) {
    CachedAfter(g, chain, sect, sect', |chain|)
  }

  ghost predicate CachedAfter(g: VolumeGeometry, chain: seq<nat>, sect: nat, sect': nat, countdown: nat) {
    if countdown > 0 then CachedAfter(g, chain, sect, sect', countdown - 1)
    else sect' == sect || InChain(g, chain, sect')
  }

  lemma {:induction false} CachedAfterIs(g: VolumeGeometry, chain: seq<nat>, sect: nat, sect': nat, countdown: nat)
    ensures CachedAfter(g, chain, sect, sect', countdown) <==> sect' == sect || InChain(g, chain, sect')
  {
    if countdown > 0 {
      CachedAfterIs(g, chain, sect, sect', countdown - 1);
    }
  }

  lemma CachedIs(g: VolumeGeometry, chain: seq<nat>, sect: nat, sect': nat)
    ensures Cached(g, chain, sect, sect') <==> sect' == sect || InChain(g, chain, sect')
  {
    CachedAfterIs(g, chain, sect, sect', |chain|);
  }

  lemma CachedSame(g: VolumeGeometry, chain: seq<nat>, sect: nat)
    ensures Cached(g, chain, sect, sect)
  {
    CachedIs(g, chain, sect, sect);
  }

  lemma CachedTwice(g: VolumeGeometry, chain: seq<nat>, chain': seq<nat>, sect: nat, sect': nat, sect'': nat)
    requires Cached(g, chain, sect, sect') && Cached(g, chain', sect', sect'') && chain <= chain'
    ensures Cached(g, chain', sect, sect'')
  {
    CachedIs(g, chain, sect, sect');
    CachedIs(g, chain', sect', sect'');
    CachedIs(g, chain', sect, sect'');
    if InChain(g, chain, sect') {
      var i :| 0 <= i < |chain| && chain[i] == ClusterAt(g, sect');
      assert chain'[i] == chain[i];
    }
  }

  lemma CachedMore(g: VolumeGeometry, v: View, v': View, chain: seq<nat>, own: seq<nat>, sect: nat, sect': nat,
      sect'': nat)
    requires Cached(g, chain, sect, sect') && Owned(g, v, v', chain, own) && Cached(g, own, sect', sect'')
    ensures Cached(g, own, sect, sect'')
  {
    if chain != [] {
      OwnedPrefix(v.table, chain, own);
    }
    CachedTwice(g, chain, own, sect, sect', sect'');
  }

  lemma OwnedPrefix(f: seq<nat>, chain: seq<nat>, own: seq<nat>)
    requires Grown(f, chain, own)
    ensures chain <= own
  {
    forall i: nat | i < |own| ensures |chain| <= |own| && (i < |chain| ==> own[i] == chain[i]) {
      GrownAt(f, chain, own, i);
    }
  }

  /** A sector in use that is none of the file's stays so, and keeps what it holds, whatever is done to the file. */
  lemma OtherSector(g: VolumeGeometry, v: View, v': View, chain: seq<nat>, own: seq<nat>, s: nat)
    requires Owned(g, v, v', chain, own) && !InChain(g, chain, s) && WindowInUse(g, v.table, s)
    ensures !InChain(g, own, s) && WindowInUse(g, v'.table, s) && |v'.rest| == |v.rest|
    ensures RestBase(g) <= s && Behind(g, s) < |v.rest| ==> v'.rest[Behind(g, s)] == v.rest[Behind(g, s)]
  {
    KeptIs(g, v, v', own);
    forall k | 0 <= k < |own| && g.database <= s < g.sectors ensures own[k] != ClusterAt(g, s) {
      GrownAt(v.table, chain, own, k);
    }
  }

  /** Nor does the file take it into its cache. */
  lemma StaysAway(g: VolumeGeometry, v: View, v': View, chain: seq<nat>, own: seq<nat>, chain': seq<nat>, sect: nat,
      sect': nat, s: nat)
    requires Owned(g, v, v', chain, own) && chain' <= own && Cached(g, own, sect, sect')
    requires !InChain(g, chain, s) && WindowInUse(g, v.table, s) && sect != s
    ensures !InChain(g, chain', s) && WindowInUse(g, v'.table, s) && sect' != s
  {
    OtherSector(g, v, v', chain, own, s);
    CachedIs(g, own, sect, sect');
  }

  /** Any other file keeps its chain and its bytes. */
  lemma OtherFile(g: VolumeGeometry, v: View, v': View, w: nat, chain: seq<nat>, chain': seq<nat>, y: Cursor)
    requires |v.table| == g.nFatent && Owned(g, v, v', chain, chain')
    requires && IntactOpen(g, v.rest, w, y) && Linked(v.table, y.sclust, y.chain)
             && forall i :: 0 <= i < |y.chain| ==> y.chain[i] !in chain
    ensures y.sclust != 0 ==> IsChain(v'.table, y.chain) && y.chain[0] == y.sclust
    ensures IntactOpen(g, v'.rest, w, y) && ContentsOpen(g, v'.rest, w, y) == ContentsOpen(g, v.rest, w, y)
  {
    KeptIs(g, v, v', chain');
    forall i | 0 <= i < |y.chain| ensures y.chain[i] !in chain' {
      StillApart(v.table, chain, chain', y.chain, i);
    }
    var b, b' := ContentsOpen(g, v.rest, w, y), ContentsOpen(g, v'.rest, w, y);
    forall i | 0 <= i < y.objsize ensures b'[i] == b[i] {
      OtherByte(g, v, v', chain', y, i);
    }
  }

  lemma StillApart(f: seq<nat>, chain: seq<nat>, chain': seq<nat>, other: seq<nat>, i: nat)
    requires Grown(f, chain, chain') && IsChain(f, other) && i < |other| && other[i] !in chain
    ensures other[i] !in chain'
  {
    ChainAllocated(f, other, i);
    forall k | 0 <= k < |chain'| ensures chain'[k] != other[i] {
      GrownAt(f, chain, chain', k);
    }
  }

  lemma OtherByte(g: VolumeGeometry, v: View, v': View, chain': seq<nat>, y: Cursor, i: nat)
    requires && KeptOpen(g, v, v', chain') && |v.rest| == g.sectors - RestBase(g) && Proper(g, y.chain)
             && Covers(g, y.chain, y.objsize)
    requires y.dirty ==> InChain(g, y.chain, y.sect)
    requires i < y.objsize && forall k :: 0 <= k < |y.chain| ==> y.chain[k] !in chain'
    ensures Behind(g, y.sect) < |v.rest| || !y.dirty
    ensures Bytes(g, Overlaid(g, v'.rest, y), y.chain, y.objsize)[i] ==
              Bytes(g, Overlaid(g, v.rest, y), y.chain, y.objsize)[i]
  {
    BytesAt(g, Overlaid(g, v.rest, y), y.chain, y.objsize, i);
    BytesAt(g, Overlaid(g, v'.rest, y), y.chain, y.objsize, i);
    LbaCluster(g, y.chain, SectorOf(i));
    if y.dirty {
      DataBehind(g, y.sect);
    }
  }
}
