/** Where the entries of a directory lie: in the fixed root table or along a cluster chain. */
module DirTable {
  import opened FatBytes
  import opened FatTable
  import opened FatVolume
  import opened FatChain
  import opened FatLayout

  const ENTRY_SIZE := 32
  const MAX_DIR := 0x20_0000
  const DELETED := 0xE5

  datatype Table = Static | Chained(chain: seq<nat>)

  predicate ProperTable(g: VolumeGeometry, t: Table) {
    t.Chained? ==> t.chain != [] && Proper(g, t.chain)
  }

  /** Sector `j` of the table exists. */
  predicate HasPart(g: VolumeGeometry, t: Table, j: nat) {
    match t
    case Static => g.fatType != FAT32 && j < g.nRootdir / 16
    case Chained(chain) => HasSector(g, chain, j)
  }

  /** Where it is, counted from the end of the FATs. */
  function Part(g: VolumeGeometry, t: Table, j: nat): (s: nat)
    requires ProperTable(g, t) && HasPart(g, t, j)
    ensures s < g.sectors - RestBase(g)
  {
    match t
    case Static => j
    case Chained(chain) => Lba(g, chain, j)
  }

  /** The cluster it is in, 0 for the fixed table. */
  function PartCluster(g: VolumeGeometry, t: Table, j: nat): nat
    requires ProperTable(g, t) && HasPart(g, t, j)
  {
    match t
    case Static => 0
    case Chained(chain) => chain[ClusterIx(g.csize, j)]
  }

  /** Entry `k` of the table exists, within the most that a table may hold. */
  predicate HasSlot(g: VolumeGeometry, t: Table, k: nat) {
    ENTRY_SIZE * k < MAX_DIR && HasPart(g, t, k / 16)
  }

  /** The first byte of entry `k`. */
  function Mark(g: VolumeGeometry, rest: Disk, t: Table, k: nat): byte
    requires ProperTable(g, t) && HasPart(g, t, k / 16) && |rest| == g.sectors - RestBase(g)
  {
    rest[Part(g, t, k / 16)][k % 16 * ENTRY_SIZE]
  }

  predicate FreeSlot(g: VolumeGeometry, rest: Disk, t: Table, k: nat)
    requires ProperTable(g, t) && HasPart(g, t, k / 16) && |rest| == g.sectors - RestBase(g)
  {
    Mark(g, rest, t, k) == DELETED || Mark(g, rest, t, k) == 0
  }

  /** Every part before a part of the table exists too. */
  lemma PartBefore(g: VolumeGeometry, t: Table, i: nat, j: nat)
    requires HasPart(g, t, j) && i <= j
    ensures HasPart(g, t, i)
  {
    if t.Chained? {
      ClusterIxMono(g.csize, i, j);
    }
  }

  /** The number of free entries that end just before entry `k`. */
  function FreeRun(g: VolumeGeometry, rest: Disk, t: Table, k: nat): (n: nat)
    requires ProperTable(g, t) && (k == 0 || HasPart(g, t, (k - 1) / 16)) && |rest| == g.sectors - RestBase(g)
    ensures n <= k
  {
    if k == 0 then 0
    else if FreeSlot(g, rest, t, k - 1) then
      PartBefore(g, t, if k == 1 then 0 else (k - 2) / 16, (k - 1) / 16);
      FreeRun(g, rest, t, k - 1) + 1
    else 0
  }

  /** What a run of free entries is. */
  lemma {:induction false} FreeRunIs(g: VolumeGeometry, rest: Disk, t: Table, k: nat, i: nat)
    requires ProperTable(g, t) && 0 < k && HasPart(g, t, (k - 1) / 16) && |rest| == g.sectors - RestBase(g)
    requires i < k && k - FreeRun(g, rest, t, k) <= i
    ensures HasPart(g, t, i / 16) && FreeSlot(g, rest, t, i)
    decreases k
  {
    PartBefore(g, t, i / 16, (k - 1) / 16);
    if i < k - 1 {
      PartBefore(g, t, (k - 2) / 16, (k - 1) / 16);
      FreeRunIs(g, rest, t, k - 1, i);
    }
  }

  /** Stepping from entry to entry: within a sector, to the next sector of the cluster or root table, or to the next
      cluster. */
  lemma NextSlot(k: nat)
    ensures (k + 1) % 16 == 0 <==> ENTRY_SIZE * (k + 1) % 512 == 0
    ensures (k + 1) % 16 == 0 ==> (k + 1) / 16 == k / 16 + 1
    ensures (k + 1) % 16 != 0 ==> (k + 1) / 16 == k / 16
    ensures ENTRY_SIZE * (k + 1) / 512 == (k + 1) / 16
  {
  }

  lemma NextPart(g: VolumeGeometry, t: Table, j: nat)
    requires ProperTable(g, t) && HasPart(g, t, j)
    ensures t.Static? ==> (HasPart(g, t, j + 1) <==> j + 1 < g.nRootdir / 16)
    ensures t.Static? && HasPart(g, t, j + 1) ==> Part(g, t, j + 1) == Part(g, t, j) + 1
    ensures (t.Chained? && (j + 1) % g.csize != 0 ==>
      HasPart(g, t, j + 1) && Part(g, t, j + 1) == Part(g, t, j) + 1
      && PartCluster(g, t, j + 1) == PartCluster(g, t, j))
    ensures (t.Chained? && (j + 1) % g.csize == 0 ==>
      && ClusterIx(g.csize, j + 1) == ClusterIx(g.csize, j) + 1 && SectorIn(g.csize, j + 1) == 0
      && (HasPart(g, t, j + 1) <==> ClusterIx(g.csize, j) + 1 < |t.chain|))
  {
    if t.Chained? {
      NextSector(g.csize, j);
      ClusterIxDiv(g.csize, j + 1);
    }
  }

  /** `d` with the `n` sectors from `a` on replaced by `z`. */
  function Filled(d: Disk, a: nat, n: nat, z: Sector): (r: Disk)
    requires a + n <= |d|
    ensures |r| == |d|
  {
    if n == 0 then d else Filled(d, a, n - 1, z)[a + n - 1 := z]
  }

  lemma {:induction false} FilledAt(d: Disk, a: nat, n: nat, z: Sector, s: nat)
    requires a + n <= |d| && s < |d|
    ensures Filled(d, a, n, z)[s] == if a <= s < a + n then z else d[s]
  {
    if n > 0 {
      FilledAt(d, a, n - 1, z, s);
    }
  }

  /** Cluster `n` of what is behind the FATs filled with `z`. */
  function FilledCluster(g: VolumeGeometry, rest: Disk, n: nat, z: Sector): (r: Disk)
    requires 2 <= n < g.nFatent && |rest| == g.sectors - RestBase(g)
    ensures |r| == |rest|
  {
    ClusterFits(g, n);
    Filled(rest, ClusterBase(g, n) - RestBase(g), g.csize, z)
  }

  /** The sectors of one cluster are not those of another chain. */
  lemma PartApart(g: VolumeGeometry, rest: Disk, chain: seq<nat>, n: nat, z: Sector, j: nat)
    requires && Proper(g, chain) && HasSector(g, chain, j) && 2 <= n < g.nFatent && n !in chain
             && |rest| == g.sectors - RestBase(g)
    ensures FilledCluster(g, rest, n, z)[Lba(g, chain, j)] == rest[Lba(g, chain, j)]
  {
    ClusterFits(g, n);
    LbaCluster(g, chain, j);
    var s, base := Lba(g, chain, j) + RestBase(g), ClusterBase(g, n);
    if base <= s < base + g.csize {
      ClusterAtBase(g, n, s - base);
    }
    FilledAt(rest, base - RestBase(g), g.csize, z, Lba(g, chain, j));
  }

  /** Chains that begin alike lie alike. */
  lemma LbaPrefix(g: VolumeGeometry, chain: seq<nat>, n: nat, j: nat)
    requires Proper(g, chain + [n])
    ensures Proper(g, chain)
    ensures HasSector(g, chain, j) ==> HasSector(g, chain + [n], j) && Lba(g, chain + [n], j) == Lba(g, chain, j)
    ensures HasSector(g, chain + [n], j) && !HasSector(g, chain, j) ==> ClusterIx(g.csize, j) == |chain|
  {
    assert (chain + [n])[..|chain|] == chain;
  }

  /** Entries of the table are as they were after a filled cluster has been added. */
  lemma MarkKept(g: VolumeGeometry, rest: Disk, chain: seq<nat>, n: nat, z: Sector, k: nat)
    requires Proper(g, chain + [n]) && chain != [] && |rest| == g.sectors - RestBase(g) && HasSector(g, chain, k / 16)
    ensures Proper(g, chain) && 2 <= n < g.nFatent && HasSector(g, chain + [n], k / 16)
    ensures Mark(g, FilledCluster(g, rest, n, z), Chained(chain + [n]), k) == Mark(g, rest, Chained(chain), k)
  {
    LbaPrefix(g, chain, n, k / 16);
    ProperAt(g, chain + [n], |chain|);
    assert n !in chain;
    PartApart(g, rest, chain, n, z, k / 16);
  }

  /** Its new entries are free when it was filled with zeros. */
  lemma MarkNew(g: VolumeGeometry, rest: Disk, chain: seq<nat>, n: nat, z: Sector, k: nat)
    requires Proper(g, chain + [n]) && chain != [] && |rest| == g.sectors - RestBase(g)
    requires HasSector(g, chain + [n], k / 16) && !HasSector(g, chain, k / 16)
    ensures && 2 <= n < g.nFatent
            && Mark(g, FilledCluster(g, rest, n, z), Chained(chain + [n]), k) == z[k % 16 * ENTRY_SIZE]
  {
    LbaPrefix(g, chain, n, k / 16);
    ProperAt(g, chain + [n], |chain|);
    ClusterFits(g, n);
    FilledAt(rest, ClusterBase(g, n) - RestBase(g), g.csize, z, Lba(g, chain + [n], k / 16));
  }

  lemma {:induction false} FreeRunKept(g: VolumeGeometry, rest: Disk, chain: seq<nat>, n: nat, z: Sector, k: nat)
    requires && Proper(g, chain + [n]) && chain != [] && |rest| == g.sectors - RestBase(g)
             && (k == 0 || HasSector(g, chain, (k - 1) / 16))
    ensures Proper(g, chain) && 2 <= n < g.nFatent && (k == 0 || HasSector(g, chain + [n], (k - 1) / 16))
    ensures FreeRun(g, FilledCluster(g, rest, n, z), Chained(chain + [n]), k) == FreeRun(g, rest, Chained(chain), k)
    decreases k
  {
    LbaPrefix(g, chain, n, 0);
    ProperAt(g, chain + [n], |chain|);
    if k > 0 {
      MarkKept(g, rest, chain, n, z, k - 1);
      PartBefore(g, Chained(chain), if k == 1 then 0 else (k - 2) / 16, (k - 1) / 16);
      FreeRunKept(g, rest, chain, n, z, k - 1);
    }
  }

  /** What a directory object holds: the offset, cluster and sector of an entry. */
  datatype Place = Place(dptr: nat, clust: nat, sect: nat)

  function OpenPlace(g: VolumeGeometry, t: Table, k: nat): Place
    requires ProperTable(g, t) && HasSlot(g, t, k)
  {
    Place(ENTRY_SIZE * k, PartCluster(g, t, k / 16), RestBase(g) + Part(g, t, k / 16))
  }

  /** OpenPlace, if there is such an entry, reached through a countdown so that a proof looks into it only where it
      calls PlaceIs. */
  predicate IsPlaceAfter(g: VolumeGeometry, t: Table, k: nat, p: Place, countdown: nat) {
    if countdown > 0 then IsPlaceAfter(g, t, k, p, countdown - 1)
    else ProperTable(g, t) && HasSlot(g, t, k) && p == OpenPlace(g, t, k)
  }

  /** An object is at entry `k` of the table. */
  predicate IsPlace(g: VolumeGeometry, t: Table, k: nat, p: Place) {
    IsPlaceAfter(g, t, k, p, k)
  }

  lemma {:induction false} PlaceAfterIs(g: VolumeGeometry, t: Table, k: nat, p: Place, countdown: nat)
    ensures IsPlaceAfter(g, t, k, p, countdown) <==> ProperTable(g, t) && HasSlot(g, t, k) && p == OpenPlace(g, t, k)
  {
    if countdown > 0 {
      PlaceAfterIs(g, t, k, p, countdown - 1);
    }
  }

  lemma PlaceIs(g: VolumeGeometry, t: Table, k: nat, p: Place)
    ensures IsPlace(g, t, k, p) <==> ProperTable(g, t) && HasSlot(g, t, k) && p == OpenPlace(g, t, k)
  {
    PlaceAfterIs(g, t, k, p, k);
  }

  /** There is only one place for an entry. */
  lemma PlaceUnique(g: VolumeGeometry, t: Table, k: nat, p: Place, q: Place)
    requires IsPlace(g, t, k, p) && IsPlace(g, t, k, q)
    ensures p == q
  {
    PlaceIs(g, t, k, p);
    PlaceIs(g, t, k, q);
  }

  /** A directory offset lies within the table. */
  predicate InTable(g: VolumeGeometry, t: Table, ofs: nat) {
    InTableAfter(g, t, ofs, ofs)
  }

  predicate InTableAfter(g: VolumeGeometry, t: Table, ofs: nat, countdown: nat) {
    if countdown > 0 then InTableAfter(g, t, ofs, countdown - 1)
    else ofs % ENTRY_SIZE == 0 && HasSlot(g, t, ofs / ENTRY_SIZE)
  }

  lemma {:induction false} InTableAfterIs(g: VolumeGeometry, t: Table, ofs: nat, countdown: nat)
    ensures InTableAfter(g, t, ofs, countdown) <==> ofs % ENTRY_SIZE == 0 && HasSlot(g, t, ofs / ENTRY_SIZE)
  {
    if countdown > 0 {
      InTableAfterIs(g, t, ofs, countdown - 1);
    }
  }

  lemma InTableIs(g: VolumeGeometry, t: Table, ofs: nat)
    ensures InTable(g, t, ofs) <==> ofs % ENTRY_SIZE == 0 && HasSlot(g, t, ofs / ENTRY_SIZE)
  {
    InTableAfterIs(g, t, ofs, ofs);
  }

  lemma SlotOffset(k: nat)
    ensures && ENTRY_SIZE * k / 512 == k / 16 && ENTRY_SIZE * k % 512 == k % 16 * ENTRY_SIZE
            && ENTRY_SIZE * k / ENTRY_SIZE == k
  {
  }

  /** The fixed table, by offset. */
  lemma StaticPlace(g: VolumeGeometry, ofs: nat)
    requires g.fatType != FAT32 && ofs < MAX_DIR && ofs % ENTRY_SIZE == 0
    ensures InTable(g, Static, ofs) <==> ofs / ENTRY_SIZE < g.nRootdir
    ensures ofs / ENTRY_SIZE < g.nRootdir ==> IsPlace(g, Static, ofs / ENTRY_SIZE, Place(ofs, 0, g.dirbase + ofs / 512))
  {
    SlotOffset(ofs / ENTRY_SIZE);
    InTableIs(g, Static, ofs);
    PlaceIs(g, Static, ofs / ENTRY_SIZE, Place(ofs, 0, g.dirbase + ofs / 512));
  }

  /** A chained table, by offset. */
  lemma ChainedPlace(g: VolumeGeometry, chain: seq<nat>, ofs: nat)
    requires ProperTable(g, Chained(chain)) && ofs < MAX_DIR && ofs % ENTRY_SIZE == 0
    ensures InTable(g, Chained(chain), ofs) <==> HasSector(g, chain, ofs / 512)
    ensures (HasSector(g, chain, ofs / 512) ==>
      IsPlace(g, Chained(chain), ofs / ENTRY_SIZE,
              Place(ofs, chain[ClusterIx(g.csize, ofs / 512)], RestBase(g) + Lba(g, chain, ofs / 512))))
  {
    SlotOffset(ofs / ENTRY_SIZE);
    InTableIs(g, Chained(chain), ofs);
    if HasSector(g, chain, ofs / 512) {
      PlaceIs(g, Chained(chain), ofs / ENTRY_SIZE, Place(ofs, chain[ClusterIx(g.csize, ofs / 512)],
          RestBase(g) + Lba(g, chain, ofs / 512)));
    }
  }

  /** The table of a directory that starts at a cluster, 0 for the fixed root table, in a well-formed FAT. */
  ghost predicate OpenDescribes(g: VolumeGeometry, f: seq<nat>, t: Table, start: nat) {
    && |f| == g.nFatent && WellFormed(f) && ProperTable(g, t)
    && if start == 0 then t == Static && g.fatType != FAT32
       else t.Chained? && IsChain(f, t.chain) && t.chain[0] == start
  }

  ghost predicate DescribesAfter(g: VolumeGeometry, f: seq<nat>, t: Table, start: nat, countdown: nat) {
    if countdown > 0 then DescribesAfter(g, f, t, start, countdown - 1) else OpenDescribes(g, f, t, start)
  }

  ghost predicate Describes(g: VolumeGeometry, f: seq<nat>, t: Table, start: nat) {
    DescribesAfter(g, f, t, start, |f|)
  }

  lemma {:induction false} DescribesAfterIs(g: VolumeGeometry, f: seq<nat>, t: Table, start: nat, countdown: nat)
    ensures DescribesAfter(g, f, t, start, countdown) <==> OpenDescribes(g, f, t, start)
  {
    if countdown > 0 {
      DescribesAfterIs(g, f, t, start, countdown - 1);
    }
  }

  lemma DescribesIs(g: VolumeGeometry, f: seq<nat>, t: Table, start: nat)
    ensures Describes(g, f, t, start) <==> OpenDescribes(g, f, t, start)
  {
    DescribesAfterIs(g, f, t, start, |f|);
  }

  lemma DescribesKind(g: VolumeGeometry, f: seq<nat>, t: Table, start: nat)
    requires Describes(g, f, t, start)
    ensures ProperTable(g, t) && |f| == g.nFatent && WellFormed(f)
    ensures if start == 0 then t == Static && g.fatType != FAT32 else t.Chained? && t.chain != [] && t.chain[0] == start
  {
    DescribesIs(g, f, t, start);
  }

  /** A chain of the FAT is a table. */
  lemma ChainDescribes(g: VolumeGeometry, f: seq<nat>, chain: seq<nat>)
    requires |f| == g.nFatent && WellFormed(f) && IsChain(f, chain)
    ensures Describes(g, f, Chained(chain), chain[0])
  {
    ChainProper(g, f, chain, |chain|);
    assert chain[..|chain|] == chain;
    assert IsCluster(f, chain[0]);
    DescribesIs(g, f, Chained(chain), chain[0]);
  }

  /** The link behind a cluster of the table. */
  lemma LinkBehind(g: VolumeGeometry, f: seq<nat>, t: Table, start: nat, i: nat)
    requires Describes(g, f, t, start) && t.Chained? && i < |t.chain|
    ensures |f| == g.nFatent && 2 <= t.chain[i] < |f|
    ensures i + 1 < |t.chain| ==> f[t.chain[i]] == t.chain[i + 1] && 2 <= t.chain[i + 1] < |f|
    ensures i + 1 == |t.chain| ==> f[t.chain[i]] >= |f|
  {
    DescribesIs(g, f, t, start);
    assert IsCluster(f, t.chain[i]);
    if i + 1 < |t.chain| {
      assert IsCluster(f, t.chain[i + 1]);
    }
  }

  // The places that dir_next comes to.

  lemma PlaceKind(g: VolumeGeometry, t: Table, k: nat, p: Place)
    requires IsPlace(g, t, k, p)
    ensures ProperTable(g, t) && p.dptr == ENTRY_SIZE * k && p.sect != 0 && (p.clust == 0 <==> t.Static?)
    ensures HasSlot(g, t, k) && p.sect == RestBase(g) + Part(g, t, k / 16)
  {
    PlaceIs(g, t, k, p);
    if t.Chained? {
      ProperAt(g, t.chain, ClusterIx(g.csize, k / 16));
    }
  }

  lemma StepPast(g: VolumeGeometry, t: Table, k: nat)
    requires MAX_DIR <= ENTRY_SIZE * (k + 1)
    ensures !InTable(g, t, ENTRY_SIZE * (k + 1))
  {
    SlotOffset(k + 1);
    InTableIs(g, t, ENTRY_SIZE * (k + 1));
  }

  /** Within a sector. */
  lemma StepWithin(g: VolumeGeometry, t: Table, k: nat, p: Place)
    requires IsPlace(g, t, k, p) && ENTRY_SIZE * (k + 1) < MAX_DIR && ENTRY_SIZE * (k + 1) % 512 != 0
    ensures InTable(g, t, ENTRY_SIZE * (k + 1)) && IsPlace(g, t, k + 1, p.(dptr := ENTRY_SIZE * (k + 1)))
  {
    NextSlot(k);
    SlotOffset(k + 1);
    PlaceIs(g, t, k, p);
    PlaceIs(g, t, k + 1, p.(dptr := ENTRY_SIZE * (k + 1)));
    InTableIs(g, t, ENTRY_SIZE * (k + 1));
  }

  /** To the next sector of the fixed table, if there is one. */
  lemma StepStatic(g: VolumeGeometry, k: nat, p: Place)
    requires IsPlace(g, Static, k, p) && ENTRY_SIZE * (k + 1) < MAX_DIR && ENTRY_SIZE * (k + 1) % 512 == 0
    ensures InTable(g, Static, ENTRY_SIZE * (k + 1)) <==> ENTRY_SIZE * (k + 1) / ENTRY_SIZE < g.nRootdir
    ensures InTable(g, Static, ENTRY_SIZE * (k + 1)) ==>
              IsPlace(g, Static, k + 1, Place(ENTRY_SIZE * (k + 1), 0, p.sect + 1))
  {
    NextSlot(k);
    SlotOffset(k + 1);
    PlaceIs(g, Static, k, p);
    PlaceIs(g, Static, k + 1, Place(ENTRY_SIZE * (k + 1), 0, p.sect + 1));
    InTableIs(g, Static, ENTRY_SIZE * (k + 1));
  }

  /** To the next sector of the cluster. */
  lemma StepSector(g: VolumeGeometry, t: Table, k: nat, p: Place)
    requires IsPlace(g, t, k, p) && t.Chained? && ENTRY_SIZE * (k + 1) < MAX_DIR
    requires ENTRY_SIZE * (k + 1) % 512 == 0 && ENTRY_SIZE * (k + 1) / 512 % g.csize != 0
    ensures && InTable(g, t, ENTRY_SIZE * (k + 1))
            && IsPlace(g, t, k + 1, Place(ENTRY_SIZE * (k + 1), p.clust, p.sect + 1))
  {
    NextSlot(k);
    SlotOffset(k + 1);
    PlaceIs(g, t, k, p);
    NextPart(g, t, k / 16);
    PlaceIs(g, t, k + 1, Place(ENTRY_SIZE * (k + 1), p.clust, p.sect + 1));
    InTableIs(g, t, ENTRY_SIZE * (k + 1));
  }

  /** To the next cluster, if there is one. */
  lemma StepCluster(g: VolumeGeometry, t: Table, k: nat, p: Place)
    requires IsPlace(g, t, k, p) && t.Chained? && ENTRY_SIZE * (k + 1) < MAX_DIR
    requires ENTRY_SIZE * (k + 1) % 512 == 0 && ENTRY_SIZE * (k + 1) / 512 % g.csize == 0
    ensures var i := ClusterIx(g.csize, k / 16);
            && i < |t.chain| && p.clust == t.chain[i] && (InTable(g, t, ENTRY_SIZE * (k + 1)) <==> i + 1 < |t.chain|)
            && (i + 1 < |t.chain| ==>
                  IsPlace(g, t, k + 1, Place(ENTRY_SIZE * (k + 1), t.chain[i + 1], ClusterBase(g, t.chain[i + 1]))))
  {
    var i := ClusterIx(g.csize, k / 16);
    NextSlot(k);
    SlotOffset(k + 1);
    PlaceIs(g, t, k, p);
    NextPart(g, t, k / 16);
    InTableIs(g, t, ENTRY_SIZE * (k + 1));
    if i + 1 < |t.chain| {
      ProperAt(g, t.chain, i + 1);
      ClusterFits(g, t.chain[i + 1]);
      PlaceIs(g, t, k + 1, Place(ENTRY_SIZE * (k + 1), t.chain[i + 1], ClusterBase(g, t.chain[i + 1])));
    }
  }

  /** What a place of the table is in a longer one. */
  lemma PlaceKept(g: VolumeGeometry, chain: seq<nat>, n: nat, k: nat, p: Place)
    requires IsPlace(g, Chained(chain), k, p) && Proper(g, chain + [n])
    ensures IsPlace(g, Chained(chain + [n]), k, p)
  {
    LbaPrefix(g, chain, n, k / 16);
    PlaceIs(g, Chained(chain), k, p);
    PlaceIs(g, Chained(chain + [n]), k, p);
  }

  /** Entries before an entry of the table are in it too. */
  lemma InTableBefore(g: VolumeGeometry, t: Table, i: nat, k: nat)
    requires InTable(g, t, ENTRY_SIZE * k) && i <= k
    ensures InTable(g, t, ENTRY_SIZE * i)
  {
    SlotOffset(i);
    SlotOffset(k);
    InTableIs(g, t, ENTRY_SIZE * i);
    InTableIs(g, t, ENTRY_SIZE * k);
    PartBefore(g, t, i / 16, k / 16);
  }

  /** The first `k` entries exist, and no run of `m` free ones ends among them; the last run of free ones is `n` long.
      The countdown only keeps proofs from looking inside. */
  predicate Searched(g: VolumeGeometry, rest: Disk, t: Table, k: nat, n: nat, m: nat) {
    SearchedAfter(g, rest, t, k, n, m, k)
  }

  predicate SearchedOpen(g: VolumeGeometry, rest: Disk, t: Table, k: nat, n: nat, m: nat) {
    && ProperTable(g, t) && |rest| == g.sectors - RestBase(g) && (k == 0 || HasPart(g, t, (k - 1) / 16))
    && n == FreeRun(g, rest, t, k) && NoRun(g, rest, t, k, m)
  }

  /** No run of `m` free entries ends with one of the first `k` entries. */
  predicate NoRun(g: VolumeGeometry, rest: Disk, t: Table, k: nat, m: nat)
    requires ProperTable(g, t) && |rest| == g.sectors - RestBase(g) && (k == 0 || HasPart(g, t, (k - 1) / 16))
  {
    && FreeRun(g, rest, t, k) < m
    && (k == 0 || (PartBefore(g, t, if k == 1 then 0 else (k - 2) / 16, (k - 1) / 16); NoRun(g, rest, t, k - 1, m)))
  }

  predicate SearchedAfter(g: VolumeGeometry, rest: Disk, t: Table, k: nat, n: nat, m: nat, countdown: nat) {
    if countdown > 0 then SearchedAfter(g, rest, t, k, n, m, countdown - 1) else SearchedOpen(g, rest, t, k, n, m)
  }

  lemma {:induction false} SearchedAfterIs(g: VolumeGeometry, rest: Disk, t: Table, k: nat, n: nat, m: nat,
      countdown: nat)
    ensures SearchedAfter(g, rest, t, k, n, m, countdown) <==> SearchedOpen(g, rest, t, k, n, m)
  {
    if countdown > 0 {
      SearchedAfterIs(g, rest, t, k, n, m, countdown - 1);
    }
  }

  lemma SearchedIs(g: VolumeGeometry, rest: Disk, t: Table, k: nat, n: nat, m: nat)
    ensures Searched(g, rest, t, k, n, m) <==> SearchedOpen(g, rest, t, k, n, m)
  {
    SearchedAfterIs(g, rest, t, k, n, m, k);
  }

  lemma SearchStarts(g: VolumeGeometry, rest: Disk, t: Table, m: nat)
    requires ProperTable(g, t) && |rest| == g.sectors - RestBase(g) && 0 < m
    ensures Searched(g, rest, t, 0, 0, m)
  {
    SearchedIs(g, rest, t, 0, 0, m);
  }

  /** The block of entries found: it ends with entry `k`, is `m` long, all free, and the first such block. */
  predicate FoundBlock(g: VolumeGeometry, rest: Disk, t: Table, k: nat, m: nat) {
    && ProperTable(g, t) && |rest| == g.sectors - RestBase(g) && HasSlot(g, t, k)
    && FreeRun(g, rest, t, k + 1) == m && 0 < m <= k + 1 && Searched(g, rest, t, k, m - 1, m)
  }

  /** One more entry looked at. */
  lemma LookedOn(g: VolumeGeometry, rest: Disk, t: Table, k: nat, n: nat, m: nat)
    requires Searched(g, rest, t, k, n, m) && HasSlot(g, t, k)
    ensures ProperTable(g, t) && |rest| == g.sectors - RestBase(g)
    ensures !FreeSlot(g, rest, t, k) ==> Searched(g, rest, t, k + 1, 0, m)
    ensures FreeSlot(g, rest, t, k) && n + 1 < m ==> Searched(g, rest, t, k + 1, n + 1, m)
    ensures FreeSlot(g, rest, t, k) && n + 1 == m ==> FoundBlock(g, rest, t, k, m)
  {
    SearchedIs(g, rest, t, k, n, m);
    SearchedIs(g, rest, t, k + 1, 0, m);
    SearchedIs(g, rest, t, k + 1, n + 1, m);
  }

  /** A zeroed cluster behind the table changes nothing in what has been looked at. */
  lemma SearchKept(g: VolumeGeometry, rest: Disk, chain: seq<nat>, c: nat, z: Sector, k: nat, n: nat, m: nat)
    requires && Searched(g, rest, Chained(chain), k, n, m) && Proper(g, chain + [c]) && chain != []
             && 2 <= c < g.nFatent && |rest| == g.sectors - RestBase(g)
    ensures Searched(g, FilledCluster(g, rest, c, z), Chained(chain + [c]), k, n, m)
  {
    SearchedIs(g, rest, Chained(chain), k, n, m);
    FreeRunKept(g, rest, chain, c, z, k);
    NoRunKept(g, rest, chain, c, z, k, m);
    SearchedIs(g, FilledCluster(g, rest, c, z), Chained(chain + [c]), k, n, m);
  }

  lemma {:induction false} NoRunKept(g: VolumeGeometry, rest: Disk, chain: seq<nat>, c: nat, z: Sector, k: nat, m: nat)
    requires && Proper(g, chain + [c]) && chain != [] && |rest| == g.sectors - RestBase(g)
             && (k == 0 || HasSector(g, chain, (k - 1) / 16))
    requires Proper(g, chain) && NoRun(g, rest, Chained(chain), k, m)
    ensures && 2 <= c < g.nFatent && (k == 0 || HasSector(g, chain + [c], (k - 1) / 16))
            && NoRun(g, FilledCluster(g, rest, c, z), Chained(chain + [c]), k, m)
    decreases k
  {
    FreeRunKept(g, rest, chain, c, z, k);
    if k > 0 {
      PartBefore(g, Chained(chain), if k == 1 then 0 else (k - 2) / 16, (k - 1) / 16);
      NoRunKept(g, rest, chain, c, z, k - 1, m);
    }
  }

  /** Every entry of the block is free. */
  lemma BlockIsFree(g: VolumeGeometry, rest: Disk, t: Table, k: nat, m: nat, i: nat)
    requires FoundBlock(g, rest, t, k, m) && k - m < i <= k
    ensures HasPart(g, t, i / 16) && FreeSlot(g, rest, t, i)
  {
    FreeRunIs(g, rest, t, k + 1, i);
  }
}
