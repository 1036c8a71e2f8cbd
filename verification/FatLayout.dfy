/** Where the bytes of a cluster chain lie on the drive, and the byte array they make up. */
module FatLayout {
  import opened FatBytes
  import opened FatTable
  import opened FatVolume
  import opened FatChain

  // Positions. Each is defined by counting; the source's divisions are shown to agree.

  /** The cluster, counted along the chain, that sector `j` of a file is in. */
  function ClusterIx(csize: nat, j: nat): nat
    requires csize > 0
    decreases j
  {
    if j < csize then 0 else 1 + ClusterIx(csize, j - csize)
  }

  /** The place of sector `j` of a file within its cluster. */
  function SectorIn(csize: nat, j: nat): (k: nat)
    requires csize > 0
    ensures k < csize
    decreases j
  {
    if j < csize then j else SectorIn(csize, j - csize)
  }

  /** The place of byte `i` of a file within its sector. */
  function ByteIn(i: nat): (o: nat)
    ensures o < 512
  {
    IndexByte(i);
    i - 512 * SectorOf(i)
  }

  /** The first sector of cluster `c`. */
  function ClusterBase(g: VolumeGeometry, c: nat): nat
  {
    if c <= 2 then g.database else ClusterBase(g, c - 1) + g.csize
  }

  /** The cluster that data sector `s` belongs to. */
  function ClusterAt(g: VolumeGeometry, s: nat): nat
    requires g.csize > 0 && g.database <= s
  {
    ClusterIx(g.csize, s - g.database) + 2
  }

  lemma {:induction false} ClusterIxDiv(csize: nat, j: nat)
    requires csize > 0
    ensures ClusterIx(csize, j) == j / csize && SectorIn(csize, j) == j % csize
    decreases j
  {
    if j >= csize {
      ClusterIxDiv(csize, j - csize);
      DivStep(csize, j);
    } else {
      DivSmall(csize, j);
    }
  }

  lemma DivSmall(m: nat, j: nat)
    requires j < m
    ensures j / m == 0 && j % m == j
  {
  }

  lemma DivStep(m: nat, j: nat)
    requires 0 < m <= j
    ensures j / m == (j - m) / m + 1 && j % m == (j - m) % m
  {
    var q, r := (j - m) / m, (j - m) % m;
    assert j == m * q + m + r;
    assert m * q + m == m * (q + 1);
    DivUnique(m, j, q + 1, r);
  }

  lemma DivUnique(m: nat, j: nat, q: nat, r: nat)
    requires m > 0 && j == m * q + r && r < m
    ensures j / m == q && j % m == r
  {
    DivUniqueParts(m, q, r, j / m, j % m);
  }

  lemma DivUniqueParts(m: nat, q: nat, r: nat, q': nat, r': nat)
    requires m * q + r == m * q' + r' && r < m && r' < m
    ensures q == q' && r == r'
  {
    if q < q' {
      assert m * (q + 1) == m * q + m;
      MulMono(m, q + 1, q');
    } else if q' < q {
      assert m * (q' + 1) == m * q' + m;
      MulMono(m, q' + 1, q);
    }
  }

  /** Cluster and place advance together with the sector. */
  lemma {:induction false} NextSector(csize: nat, j: nat)
    requires csize > 0
    ensures if SectorIn(csize, j) + 1 < csize
            then ClusterIx(csize, j + 1) == ClusterIx(csize, j) && SectorIn(csize, j + 1) == SectorIn(csize, j) + 1
            else ClusterIx(csize, j + 1) == ClusterIx(csize, j) + 1 && SectorIn(csize, j + 1) == 0
    decreases j
  {
    if j >= csize {
      NextSector(csize, j - csize);
    }
  }

  /** Equal positions are equal sectors. */
  lemma {:induction false} PositionUnique(csize: nat, i: nat, j: nat)
    requires csize > 0 && ClusterIx(csize, i) == ClusterIx(csize, j) && SectorIn(csize, i) == SectorIn(csize, j)
    ensures i == j
    decreases i + j
  {
    if i >= csize && j >= csize {
      PositionUnique(csize, i - csize, j - csize);
    }
  }

  lemma {:induction false} ClusterIxMono(csize: nat, i: nat, j: nat)
    requires csize > 0 && i <= j
    ensures ClusterIx(csize, i) <= ClusterIx(csize, j)
    decreases j
  {
    if i >= csize {
      ClusterIxMono(csize, i - csize, j - csize);
    }
  }

  lemma {:induction false} ClusterBaseIs(g: VolumeGeometry, c: nat)
    requires c >= 2
    ensures ClusterBase(g, c) == g.database + g.csize * (c - 2)
  {
    if c > 2 {
      ClusterBaseIs(g, c - 1);
      assert g.csize * (c - 2) == g.csize * (c - 3) + g.csize;
    }
  }

  /** Every cluster lies in the data area. */
  lemma ClusterFits(g: VolumeGeometry, c: nat)
    requires 2 <= c < g.nFatent
    ensures RestBase(g) <= g.database <= ClusterBase(g, c) && ClusterBase(g, c) + g.csize <= g.sectors
  {
    ClusterBaseIs(g, c);
    DataAreaIs(g.csize, g.nFatent - 2);
    assert g.csize * (c - 2) + g.csize <= g.csize * (g.nFatent - 2) by {
      assert g.csize * (c - 2) + g.csize == g.csize * (c - 1);
      MulMono(g.csize, c - 1, g.nFatent - 2);
    }
  }

  lemma MulMono(a: nat, b: nat, c: nat)
    requires b <= c
    ensures a * b <= a * c
  {
  }

  /** Clusters do not overlap: the sectors of `c` are those that belong to it. */
  lemma {:induction false} ClusterAtBase(g: VolumeGeometry, c: nat, k: nat)
    requires g.csize > 0 && c >= 2 && k < g.csize
    ensures ClusterBase(g, c) >= g.database && ClusterAt(g, ClusterBase(g, c) + k) == c
    ensures SectorIn(g.csize, ClusterBase(g, c) + k - g.database) == k
    decreases c
  {
    if c > 2 {
      ClusterAtBase(g, c - 1, k);
    }
  }

  // The bytes of a chain.

  /** Every cluster of the chain is one of the volume, and none occurs twice. */
  predicate Proper(g: VolumeGeometry, chain: seq<nat>) {
    chain == [] || var m := |chain| - 1; Proper(g, chain[..m]) && 2 <= chain[m] < g.nFatent && chain[m] !in chain[..m]
  }

  lemma {:induction false} ProperAt(g: VolumeGeometry, chain: seq<nat>, i: nat)
    requires Proper(g, chain) && i < |chain|
    ensures 2 <= chain[i] < g.nFatent
    ensures forall j :: 0 <= j < i ==> chain[j] != chain[i]
  {
    var m := |chain| - 1;
    if i < m {
      ProperAt(g, chain[..m], i);
    } else {
      forall j | 0 <= j < i ensures chain[j] != chain[i] {
        assert chain[..m][j] == chain[j];
      }
    }
  }

  /** Every chain of the FAT is one. */
  lemma {:induction false} ChainProper(g: VolumeGeometry, f: seq<nat>, chain: seq<nat>, n: nat)
    requires |f| == g.nFatent && IsChain(f, chain) && n <= |chain|
    ensures Proper(g, chain[..n])
    decreases n
  {
    if n > 0 {
      ChainProper(g, f, chain, n - 1);
      assert chain[..n][..n - 1] == chain[..n - 1];
      assert IsCluster(f, chain[n - 1]);
      var init := chain[..n - 1];
      forall j | 0 <= j < n - 1 ensures init[j] != chain[n - 1] {
        ChainDistinct(f, chain, j, n - 1);
      }
    }
  }

  lemma ProperSnoc(g: VolumeGeometry, chain: seq<nat>, n: nat)
    requires Proper(g, chain) && 2 <= n < g.nFatent && n !in chain
    ensures Proper(g, chain + [n])
  {
    assert (chain + [n])[..|chain|] == chain;
  }

  /** Sector `j` of a file with this chain exists. */
  predicate HasSector(g: VolumeGeometry, chain: seq<nat>, j: nat) {
    g.csize > 0 && ClusterIx(g.csize, j) < |chain|
  }

  /** The drive sector that holds sector `j` of a file, counted from the end of the FATs. */
  function Lba(g: VolumeGeometry, chain: seq<nat>, j: nat): (s: nat)
    requires Proper(g, chain) && HasSector(g, chain, j)
    ensures s < g.sectors - RestBase(g)
  {
    ProperAt(g, chain, ClusterIx(g.csize, j));
    ClusterFits(g, chain[ClusterIx(g.csize, j)]);
    ClusterBase(g, chain[ClusterIx(g.csize, j)]) + SectorIn(g.csize, j) - RestBase(g)
  }

  /** Different sectors of a file lie in different sectors of the drive. */
  lemma LbaInjective(g: VolumeGeometry, chain: seq<nat>, i: nat, j: nat)
    requires Proper(g, chain) && HasSector(g, chain, i) && HasSector(g, chain, j)
    requires Lba(g, chain, i) == Lba(g, chain, j)
    ensures i == j
  {
    LbaCluster(g, chain, i);
    LbaCluster(g, chain, j);
    ProperAt(g, chain, ClusterIx(g.csize, i));
    ProperAt(g, chain, ClusterIx(g.csize, j));
    PositionUnique(g.csize, i, j);
  }

  /** The drive sector of file sector `j` is in the cluster the chain names, at the place within it. */
  lemma LbaCluster(g: VolumeGeometry, chain: seq<nat>, j: nat)
    requires Proper(g, chain) && HasSector(g, chain, j)
    ensures var s := Lba(g, chain, j) + RestBase(g);
            && g.database <= s < g.sectors && ClusterAt(g, s) == chain[ClusterIx(g.csize, j)]
            && SectorIn(g.csize, s - g.database) == SectorIn(g.csize, j)
  {
    var c := chain[ClusterIx(g.csize, j)];
    ProperAt(g, chain, ClusterIx(g.csize, j));
    ClusterFits(g, c);
    ClusterAtBase(g, c, SectorIn(g.csize, j));
  }

  /** Sectors that follow each other within a cluster follow each other on the drive. */
  lemma {:induction false} LbaRun(g: VolumeGeometry, chain: seq<nat>, j: nat, k: nat)
    requires Proper(g, chain) && HasSector(g, chain, j) && SectorIn(g.csize, j) + k < g.csize
    ensures HasSector(g, chain, j + k) && Lba(g, chain, j + k) == Lba(g, chain, j) + k
    ensures SectorIn(g.csize, j + k) == SectorIn(g.csize, j) + k
    decreases k
  {
    if k > 0 {
      LbaRun(g, chain, j, k - 1);
      NextSector(g.csize, j + k - 1);
    }
  }

  /** Byte `i` of a file. */
  function ByteAt(g: VolumeGeometry, rest: Disk, chain: seq<nat>, i: nat): byte
    requires Proper(g, chain) && |rest| == g.sectors - RestBase(g) && HasSector(g, chain, SectorOf(i))
  {
    rest[Lba(g, chain, SectorOf(i))][ByteIn(i)]
  }

  /** The chain has room for `n` bytes. */
  predicate Covers(g: VolumeGeometry, chain: seq<nat>, n: nat) {
    n == 0 || HasSector(g, chain, SectorOf(n - 1))
  }

  lemma CoversByte(g: VolumeGeometry, chain: seq<nat>, n: nat, i: nat)
    requires g.csize > 0 && Covers(g, chain, n) && i < n
    ensures HasSector(g, chain, SectorOf(i)) && Covers(g, chain, i)
  {
    SectorOfMono(i, n - 1);
    ClusterIxMono(g.csize, SectorOf(i), SectorOf(n - 1));
    if i > 0 {
      SectorOfMono(i - 1, n - 1);
      ClusterIxMono(g.csize, SectorOf(i - 1), SectorOf(n - 1));
    }
  }

  lemma SectorOfMono(i: nat, j: nat)
    requires i <= j
    ensures SectorOf(i) <= SectorOf(j)
  {
    IndexByte(i);
    IndexByte(j);
  }

  /** The first `n` bytes of a file. The countdown only keeps proofs from looking inside where BytesAt is not called. */
  function Bytes(g: VolumeGeometry, rest: Disk, chain: seq<nat>, n: nat): (r: seq<byte>)
    requires Proper(g, chain) && |rest| == g.sectors - RestBase(g) && Covers(g, chain, n)
    ensures |r| == n
  {
    BytesAfter(g, rest, chain, n, n)
  }

  function BytesAfter(g: VolumeGeometry, rest: Disk, chain: seq<nat>, n: nat, countdown: nat): (r: seq<byte>)
    requires Proper(g, chain) && |rest| == g.sectors - RestBase(g) && Covers(g, chain, n)
    ensures |r| == n
    decreases countdown
  {
    if countdown > 0 then BytesAfter(g, rest, chain, n, countdown - 1)
    else seq(n, i requires 0 <= i < n => CoversByte(g, chain, n, i); ByteAt(g, rest, chain, i))
  }

  lemma {:induction false} BytesAfterAt(g: VolumeGeometry, rest: Disk, chain: seq<nat>, n: nat, countdown: nat, i: nat)
    requires Proper(g, chain) && |rest| == g.sectors - RestBase(g) && Covers(g, chain, n) && i < n
    ensures HasSector(g, chain, SectorOf(i)) && BytesAfter(g, rest, chain, n, countdown)[i] == ByteAt(g, rest, chain, i)
    decreases countdown
  {
    CoversByte(g, chain, n, i);
    if countdown > 0 {
      BytesAfterAt(g, rest, chain, n, countdown - 1, i);
    }
  }

  lemma BytesAt(g: VolumeGeometry, rest: Disk, chain: seq<nat>, n: nat, i: nat)
    requires Proper(g, chain) && |rest| == g.sectors - RestBase(g) && Covers(g, chain, n) && i < n
    ensures HasSector(g, chain, SectorOf(i)) && Bytes(g, rest, chain, n)[i] == ByteAt(g, rest, chain, i)
  {
    BytesAfterAt(g, rest, chain, n, n, i);
  }

  // Reading and changing those bytes sector by sector.

  /** Positions within one sector. */
  lemma SameSector(p: nat, k: nat)
    requires ByteIn(p) + k < 512
    ensures SectorOf(p + k) == SectorOf(p) && ByteIn(p + k) == ByteIn(p) + k
  {
    IndexByte(p);
    IndexByte(p + k);
  }

  /** What lies in the sector of byte `p` from there on. */
  lemma {:induction false} ReadWithin(g: VolumeGeometry, rest: Disk, chain: seq<nat>, n: nat, p: nat, cnt: nat)
    requires Proper(g, chain) && |rest| == g.sectors - RestBase(g) && Covers(g, chain, n)
    requires p + cnt <= n && ByteIn(p) + cnt <= 512 && HasSector(g, chain, SectorOf(p))
    ensures Bytes(g, rest, chain, n)[p..p + cnt] == rest[Lba(g, chain, SectorOf(p))][ByteIn(p)..ByteIn(p) + cnt]
  {
    var s := rest[Lba(g, chain, SectorOf(p))];
    var x, y := Bytes(g, rest, chain, n)[p..p + cnt], s[ByteIn(p)..ByteIn(p) + cnt];
    forall k | 0 <= k < cnt ensures x[k] == y[k] {
      SameSector(p, k);
      BytesAt(g, rest, chain, n, p + k);
    }
  }

  /** Whole sectors read off the drive in one go. */
  lemma {:induction false} ReadSectors(g: VolumeGeometry, rest: Disk, chain: seq<nat>, n: nat, j: nat, cc: nat)
    requires Proper(g, chain) && |rest| == g.sectors - RestBase(g) && Covers(g, chain, n)
    requires 0 < cc && 512 * (j + cc) <= n && HasSector(g, chain, j) && SectorIn(g.csize, j) + cc <= g.csize
    requires Lba(g, chain, j) + cc <= |rest|
    ensures Bytes(g, rest, chain, n)[512 * j..512 * (j + cc)] == Flat(rest[Lba(g, chain, j)..Lba(g, chain, j) + cc])
    decreases cc
  {
    var a := Lba(g, chain, j);
    FlatFirst(rest[a..a + cc]);
    SectorAt(j, 0);
    ReadWithin(g, rest, chain, n, 512 * j, 512);
    if cc > 1 {
      LbaRun(g, chain, j, 1);
      ReadSectors(g, rest, chain, n, j + 1, cc - 1);
      assert rest[a..a + cc][1..] == rest[a + 1..a + cc];
      Halves(Bytes(g, rest, chain, n), 512 * j, 512 * j + 512, 512 * (j + cc));
    }
  }

  lemma Halves(s: seq<byte>, a: nat, b: nat, c: nat)
    requires a <= b <= c <= |s|
    ensures s[a..c] == s[a..b] + s[b..c]
  {
  }

  lemma SectorAt(j: nat, o: nat)
    requires o < 512
    ensures SectorOf(512 * j + o) == j && ByteIn(512 * j + o) == o
  {
    IndexByte(512 * j + o);
  }

  function Max(a: nat, b: nat): nat {
    if a < b then b else a
  }

  /** `s` with the bytes from `p` on replaced by `data`, and longer if need be. */
  function Overwrite(s: seq<byte>, p: nat, data: seq<byte>): (r: seq<byte>)
    requires p <= |s|
    ensures |r| == Max(|s|, p + |data|)
  {
    OverwriteAfter(s, p, data, |data|)
  }

  function OverwriteAfter(s: seq<byte>, p: nat, data: seq<byte>, countdown: nat): (r: seq<byte>)
    requires p <= |s|
    ensures |r| == Max(|s|, p + |data|)
    decreases countdown
  {
    if countdown > 0 then OverwriteAfter(s, p, data, countdown - 1)
    else s[..p] + data + if p + |data| < |s| then s[p + |data|..] else []
  }

  lemma {:induction false} OverwriteAfterAt(s: seq<byte>, p: nat, data: seq<byte>, countdown: nat, i: nat)
    requires p <= |s| && i < Max(|s|, p + |data|)
    ensures OverwriteAfter(s, p, data, countdown)[i] == if p <= i < p + |data| then data[i - p] else s[i]
    decreases countdown
  {
    if countdown > 0 {
      OverwriteAfterAt(s, p, data, countdown - 1, i);
    }
  }

  lemma OverwriteAt(s: seq<byte>, p: nat, data: seq<byte>, i: nat)
    requires p <= |s| && i < Max(|s|, p + |data|)
    ensures Overwrite(s, p, data)[i] == if p <= i < p + |data| then data[i - p] else s[i]
  {
    OverwriteAfterAt(s, p, data, |data|, i);
  }

  lemma OverwriteTwice(s: seq<byte>, p: nat, d: seq<byte>, d': seq<byte>)
    requires p <= |s|
    ensures Overwrite(Overwrite(s, p, d), p + |d|, d') == Overwrite(s, p, d + d')
  {
    var x, y := Overwrite(Overwrite(s, p, d), p + |d|, d'), Overwrite(s, p, d + d');
    assert |x| == |y|;
    forall i | 0 <= i < |x| ensures x[i] == y[i] {
      OverwriteAt(s, p, d + d', i);
      OverwriteAt(Overwrite(s, p, d), p + |d|, d', i);
      if i < Max(|s|, p + |d|) {
        OverwriteAt(s, p, d, i);
      }
    }
  }

  /** `s` with the bytes from `o` on replaced. */
  function Patch(s: Sector, o: nat, data: seq<byte>): (r: Sector)
    requires o + |data| <= 512
  {
    s[..o] + data + s[o + |data|..]
  }

  /** Replacing the drive sector of file sector `j` replaces the bytes of that sector and no others. */
  lemma WriteSectorAt(g: VolumeGeometry, rest: Disk, chain: seq<nat>, j: nat, s: Sector, i: nat)
    requires Proper(g, chain) && |rest| == g.sectors - RestBase(g)
    requires HasSector(g, chain, j) && HasSector(g, chain, SectorOf(i))
    ensures ByteAt(g, rest[Lba(g, chain, j) := s], chain, i) ==
              if SectorOf(i) == j then s[ByteIn(i)] else ByteAt(g, rest, chain, i)
  {
    if SectorOf(i) != j && Lba(g, chain, SectorOf(i)) == Lba(g, chain, j) {
      LbaInjective(g, chain, SectorOf(i), j);
    }
  }

  /** Patching the sector of byte `p` overwrites the file there. */
  lemma {:induction false} WriteWithin(g: VolumeGeometry, rest: Disk, chain: seq<nat>, n: nat, p: nat, data: seq<byte>)
    requires Proper(g, chain) && |rest| == g.sectors - RestBase(g)
    requires Covers(g, chain, n) && Covers(g, chain, Max(n, p + |data|)) && p <= n
    requires ByteIn(p) + |data| <= 512 && HasSector(g, chain, SectorOf(p))
    ensures var a := Lba(g, chain, SectorOf(p));
            Bytes(g, rest[a := Patch(rest[a], ByteIn(p), data)], chain, Max(n, p + |data|)) ==
              Overwrite(Bytes(g, rest, chain, n), p, data)
  {
    var a := Lba(g, chain, SectorOf(p));
    var rest' := rest[a := Patch(rest[a], ByteIn(p), data)];
    var n' := Max(n, p + |data|);
    var x, y := Bytes(g, rest', chain, n'), Overwrite(Bytes(g, rest, chain, n), p, data);
    forall i | 0 <= i < n' ensures x[i] == y[i] {
      WriteWithinAt(g, rest, chain, n, p, data, i);
      OverwriteAt(Bytes(g, rest, chain, n), p, data, i);
      BytesAt(g, rest', chain, n', i);
      if i < n {
        BytesAt(g, rest, chain, n, i);
      }
    }
  }

  lemma WriteWithinAt(g: VolumeGeometry, rest: Disk, chain: seq<nat>, n: nat, p: nat, data: seq<byte>, i: nat)
    requires Proper(g, chain) && |rest| == g.sectors - RestBase(g)
    requires Covers(g, chain, Max(n, p + |data|)) && i < Max(n, p + |data|)
    requires ByteIn(p) + |data| <= 512 && HasSector(g, chain, SectorOf(p))
    ensures HasSector(g, chain, SectorOf(i))
    ensures var a := Lba(g, chain, SectorOf(p));
            ByteAt(g, rest[a := Patch(rest[a], ByteIn(p), data)], chain, i) ==
            if p <= i < p + |data| then data[i - p] else ByteAt(g, rest, chain, i)
  {
    var a := Lba(g, chain, SectorOf(p));
    CoversByte(g, chain, Max(n, p + |data|), i);
    WriteSectorAt(g, rest, chain, SectorOf(p), Patch(rest[a], ByteIn(p), data), i);
    if p <= i < p + |data| {
      SameSector(p, i - p);
    } else if SectorOf(i) == SectorOf(p) {
      IndexByte(i);
      IndexByte(p);
    }
  }

  /** A longer chain keeps the bytes there were. */
  lemma LongerChain(g: VolumeGeometry, rest: Disk, chain: seq<nat>, chain': seq<nat>, n: nat)
    requires Proper(g, chain') && chain <= chain' && |rest| == g.sectors - RestBase(g)
    requires Covers(g, chain, n)
    ensures Proper(g, chain) && Covers(g, chain', n)
    ensures Bytes(g, rest, chain', n) == Bytes(g, rest, chain, n)
  {
    ProperPrefix(g, chain, chain');
    var x, y := Bytes(g, rest, chain', n), Bytes(g, rest, chain, n);
    forall i | 0 <= i < n ensures x[i] == y[i] {
      BytesAt(g, rest, chain, n, i);
      BytesAt(g, rest, chain', n, i);
    }
  }

  lemma {:induction false} ProperPrefix(g: VolumeGeometry, chain: seq<nat>, chain': seq<nat>)
    requires Proper(g, chain') && chain <= chain'
    ensures Proper(g, chain)
    decreases |chain'|
  {
    if |chain| < |chain'| {
      ProperPrefix(g, chain, chain'[..|chain'| - 1]);
    } else {
      assert chain == chain';
    }
  }

  lemma CoversSector(g: VolumeGeometry, chain: seq<nat>, n: nat, j: nat)
    requires Covers(g, chain, n) && HasSector(g, chain, j)
    ensures Covers(g, chain, Max(n, 512 * j + 512))
  {
    SectorAt(j, 511);
  }

  lemma {:induction false} WriteWhole(g: VolumeGeometry, rest: Disk, chain: seq<nat>, n: nat, j: nat, s: Sector)
    requires Proper(g, chain) && |rest| == g.sectors - RestBase(g)
    requires Covers(g, chain, n) && 512 * j <= n && HasSector(g, chain, j)
    ensures Covers(g, chain, Max(n, 512 * j + 512))
    ensures Bytes(g, rest[Lba(g, chain, j) := s], chain, Max(n, 512 * j + 512)) ==
              Overwrite(Bytes(g, rest, chain, n), 512 * j, s)
  {
    CoversSector(g, chain, n, j);
    SectorAt(j, 0);
    assert Patch(rest[Lba(g, chain, j)], 0, s) == s;
    WriteWithin(g, rest, chain, n, 512 * j, s);
  }

  /** `rest` with the sectors from `a` on replaced. */
  function PutRun(rest: Disk, a: nat, ss: seq<Sector>): (r: Disk)
    requires a + |ss| <= |rest|
    ensures |r| == |rest|
  {
    PutRunAfter(rest, a, ss, |ss|)
  }

  function PutRunAfter(rest: Disk, a: nat, ss: seq<Sector>, countdown: nat): (r: Disk)
    requires a + |ss| <= |rest|
    ensures |r| == |rest|
    decreases countdown
  {
    if countdown > 0 then PutRunAfter(rest, a, ss, countdown - 1) else rest[..a] + ss + rest[a + |ss|..]
  }

  lemma {:induction false} PutRunAfterAt(rest: Disk, a: nat, ss: seq<Sector>, countdown: nat, b: nat)
    requires a + |ss| <= |rest| && b < |rest|
    ensures PutRunAfter(rest, a, ss, countdown)[b] == if a <= b < a + |ss| then ss[b - a] else rest[b]
    decreases countdown
  {
    if countdown > 0 {
      PutRunAfterAt(rest, a, ss, countdown - 1, b);
    }
  }

  lemma PutRunAt(rest: Disk, a: nat, ss: seq<Sector>, b: nat)
    requires a + |ss| <= |rest| && b < |rest|
    ensures PutRun(rest, a, ss)[b] == if a <= b < a + |ss| then ss[b - a] else rest[b]
  {
    PutRunAfterAt(rest, a, ss, |ss|, b);
  }

  /** Replaced one after the other. */
  lemma PutRunFirst(rest: Disk, a: nat, ss: seq<Sector>)
    requires a + |ss| <= |rest|
    ensures if ss == [] then PutRun(rest, a, ss) == rest
            else PutRun(rest, a, ss) == PutRun(rest[a := ss[0]], a + 1, ss[1..])
    ensures |ss| == 1 ==> PutRun(rest, a, ss) == rest[a := ss[0]]
  {
    var x := PutRun(rest, a, ss);
    var y := if ss == [] then rest else PutRun(rest[a := ss[0]], a + 1, ss[1..]);
    var z := if |ss| == 1 then rest[a := ss[0]] else x;
    forall b | 0 <= b < |rest| ensures x[b] == y[b] == z[b] {
      PutRunAt(rest, a, ss, b);
      if ss != [] {
        PutRunAt(rest[a := ss[0]], a + 1, ss[1..], b);
      }
    }
  }

  /** Writing whole sectors in one go overwrites the file there. */
  lemma {:induction false} WriteSectors(g: VolumeGeometry, rest: Disk, chain: seq<nat>, n: nat, j: nat, ss: seq<Sector>)
    requires Proper(g, chain) && |rest| == g.sectors - RestBase(g)
    requires Covers(g, chain, n) && 512 * j <= n && HasSector(g, chain, j) && SectorIn(g.csize, j) + |ss| <= g.csize
    requires ss != [] && Lba(g, chain, j) + |ss| <= |rest|
    ensures Covers(g, chain, Max(n, 512 * (j + |ss|)))
    ensures Bytes(g, PutRun(rest, Lba(g, chain, j), ss), chain, Max(n, 512 * (j + |ss|))) ==
              Overwrite(Bytes(g, rest, chain, n), 512 * j, Flat(ss))
    decreases |ss|
  {
    var a := Lba(g, chain, j);
    FlatFirst(ss);
    PutRunFirst(rest, a, ss);
    WriteWhole(g, rest, chain, n, j, ss[0]);
    if |ss| > 1 {
      LbaRun(g, chain, j, 1);
      WriteSectors(g, rest[a := ss[0]], chain, Max(n, 512 * j + 512), j + 1, ss[1..]);
      OverwriteTwice(Bytes(g, rest, chain, n), 512 * j, ss[0], Flat(ss[1..]));
    }
  }
}
