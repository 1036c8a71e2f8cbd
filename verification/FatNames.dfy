/** Names in directories: dir_register. */
module FatNames {
  import opened FatBytes
  import opened FatTable
  import opened FatVolume
  import opened FatChain
  import opened FatAlloc
  import opened FatLayout
  import opened FatCursor
  import opened FatState
  import opened DirTable
  import opened FatDir
  import opened FatLfn
  import opened FatSfn
  import opened FatSlots
  import opened FatCatalog

  /** The entries of a directory as the volume code sees them. */
  ghost function Listing(d: Dir): seq<Slot>
    reads d, d.fs
  {
    if d.Valid() && ProperTable(d.fs.g, d.table) && |d.fs.Image().rest| == d.fs.g.sectors - RestBase(d.fs.g)
    then Slots(d.fs.g, d.fs.Image().rest, d.table) else []
  }

  lemma Listed(d: Dir)
    requires d.Valid()
    ensures ProperTable(d.fs.g, d.table) && |d.fs.Image().rest| == d.fs.g.sectors - RestBase(d.fs.g)
    ensures Listing(d) == Slots(d.fs.g, d.fs.Image().rest, d.table)
  {
    ViewSizes(d.fs.g, d.fs.Logical());
    DescribesKind(d.fs.g, d.fs.Fat(), d.table, d.Start());
  }

  lemma ListedAt(d: Dir, k: nat)
    requires d.Valid()
    ensures k < |Listing(d)| <==> InTable(d.fs.g, d.table, ENTRY_SIZE * k)
  {
    Listed(d);
    SlotOffset(k);
    InTableIs(d.fs.g, d.table, ENTRY_SIZE * k);
    SlotsAre(d.fs.g, d.fs.Image().rest, d.table, k);
  }

  /** The directory holds some entries, and its object is at entry `k` unless that is negative. */
  ghost predicate OpenReady(d: Dir, k: int, list: seq<Slot>)
    reads d, d.fs
  {
    d.Valid() && Listing(d) == list && (k >= 0 ==> d.At(k))
  }

  /** OpenReady, reached through a countdown so that a proof looks into it only where it calls ReadyIs. */
  ghost predicate ReadyAfter(d: Dir, k: int, list: seq<Slot>, countdown: nat)
    reads d, d.fs
  {
    if countdown > 0 then ReadyAfter(d, k, list, countdown - 1) else OpenReady(d, k, list)
  }

  ghost predicate Ready(d: Dir, k: int, list: seq<Slot>)
    reads d, d.fs
  {
    ReadyAfter(d, k, list, |list|)
  }

  lemma {:induction false} ReadyAfterIs(d: Dir, k: int, list: seq<Slot>, countdown: nat)
    ensures ReadyAfter(d, k, list, countdown) <==> OpenReady(d, k, list)
  {
    if countdown > 0 {
      ReadyAfterIs(d, k, list, countdown - 1);
    }
  }

  lemma ReadyIs(d: Dir, k: int, list: seq<Slot>)
    ensures Ready(d, k, list) <==> OpenReady(d, k, list)
  {
    ReadyAfterIs(d, k, list, |list|);
  }

  /** A directory at an entry is ready for anything else too, and the entry exists. */
  lemma ReadyAnywhere(d: Dir, k: int, list: seq<Slot>)
    requires Ready(d, k, list)
    ensures Ready(d, -1, list) && (k >= 0 ==> k < |list|)
  {
    ReadyIs(d, k, list);
    ReadyIs(d, -1, list);
    if k >= 0 {
      PlaceKind(d.fs.g, d.table, k, d.Here());
      Listed(d);
      SlotsAre(d.fs.g, d.fs.Image().rest, d.table, k);
    }
  }

  /** What the window holds on the sector of an entry. */
  lemma WindowSlot(g: VolumeGeometry, log: Disk, t: Table, k: nat, p: Place)
    requires |log| == g.sectors && IsPlace(g, t, k, p)
    ensures && ProperTable(g, t) && HasSlot(g, t, k) && |ViewOf(g, log).rest| == g.sectors - RestBase(g)
            && RestBase(g) <= p.sect < g.sectors
    ensures log[p.sect] == ViewOf(g, log).rest[Part(g, t, k / 16)] && p.dptr % 512 == k % 16 * ENTRY_SIZE
    ensures SlotAt(g, ViewOf(g, log).rest, t, k) == log[p.sect][p.dptr % 512..p.dptr % 512 + 32]
  {
    PlaceKind(g, t, k, p);
    SlotOffset(k);
    ViewSizes(g, log);
    ViewRest(g, log, p.sect, log[p.sect]);
  }

  /** The sector of the current entry brought into the window. */
  method ToSlot(d: Dir, ghost k: nat) returns (res: FResult, e: Slot)
    requires d.Valid() && d.At(k)
    modifies d.fs`disk, d.fs`wflag, d.fs`mirrorLost, d.fs`win, d.fs`winsect
    ensures d.Valid() && d.fs.Image() == old(d.fs.Image()) && (res == FR_OK || res == FR_DISK_ERR)
    ensures && ProperTable(d.fs.g, d.table) && HasSlot(d.fs.g, d.table, k)
            && |d.fs.Image().rest| == d.fs.g.sectors - RestBase(d.fs.g)
    ensures res == FR_OK ==>
              && d.fs.winsect == d.sect && d.fs.win == d.fs.Image().rest[Part(d.fs.g, d.table, k / 16)]
              && e == SlotAt(d.fs.g, d.fs.Image().rest, d.table, k)
  {
    WindowSlot(d.fs.g, d.fs.Logical(), d.table, k, d.Here());
    res := d.fs.MoveWindow(d.sect);
    WindowSlot(d.fs.g, d.fs.Logical(), d.table, k, d.Here());
    e := d.fs.win[d.dptr % 512..d.dptr % 512 + 32];
  }

  /** The current entry replaced in the window. */
  method PokeSlot(d: Dir, e: Slot, ghost k: nat)
    requires d.Valid() && d.At(k) && d.fs.winsect == d.sect
    requires && ProperTable(d.fs.g, d.table) && HasSlot(d.fs.g, d.table, k)
             && |d.fs.Image().rest| == d.fs.g.sectors - RestBase(d.fs.g)
    requires d.fs.win == d.fs.Image().rest[Part(d.fs.g, d.table, k / 16)]
    modifies d.fs`wflag, d.fs`win
    ensures && d.Valid()
            && d.fs.Image() == old(d.fs.Image()).(rest := PutAt(d.fs.g, old(d.fs.Image()).rest, d.table, k, e))
  {
    PlaceKind(d.fs.g, d.table, k, d.Here());
    SlotOffset(k);
    var data: Sector := WithSlot(d.fs.win, d.dptr % 512, e);
    ViewRest(d.fs.g, d.fs.Logical(), d.sect, data);
    d.fs.ValidIs();
    d.fs.win := data;
    d.fs.wflag := true;
    d.fs.ValidIs();
    assert d.fs.Logical() == old(d.fs.Logical())[d.fs.winsect := data];
  }

  // Single entries.

  /** The current entry read. */
  method ReadSlot(d: Dir, ghost k: nat, ghost list: seq<Slot>) returns (res: FResult, e: Slot)
    requires Ready(d, k, list)
    modifies d.fs`disk, d.fs`wflag, d.fs`mirrorLost, d.fs`win, d.fs`winsect
    ensures Ready(d, k, list) && k < |list| && (res == FR_OK || res == FR_DISK_ERR)
    ensures res == FR_OK ==> e == list[k]
  {
    ReadyAnywhere(d, k, list);
    ReadyIs(d, k, list);
    Listed(d);
    SlotsAre(d.fs.g, d.fs.Image().rest, d.table, k);
    res, e := ToSlot(d, k);
    Listed(d);
    ReadyIs(d, k, list);
  }

  /** The current entry replaced by what a first look at it makes of it: just that entry changes. */
  method WriteSlot(d: Dir, e: Slot, ghost k: nat, ghost list: seq<Slot>)
    requires && OpenReady(d, k, list) && d.fs.winsect == d.sect && ProperTable(d.fs.g, d.table)
             && HasSlot(d.fs.g, d.table, k)
    requires && |d.fs.Image().rest| == d.fs.g.sectors - RestBase(d.fs.g)
             && d.fs.win == d.fs.Image().rest[Part(d.fs.g, d.table, k / 16)]
    modifies d.fs`wflag, d.fs`win
    ensures k < |list| && Ready(d, k, list[k := e])
  {
    Listed(d);
    PutAtSlots(d.fs.g, d.fs.Image().rest, d.table, k, e);
    PokeSlot(d, e, k);
    Listed(d);
    ReadyIs(d, k, list[k := e]);
  }

  /** A long-name entry stored. */
  method StoreLfn(d: Dir, n: Name, ord: nat, sum: byte, ghost k: nat, ghost list: seq<Slot>)
      returns (res: FResult, ghost e: Slot)
    requires Ready(d, k, list) && n != [] && |n| <= MAX_LFN && 0 < ord <= LastPart(n)
    modifies d.fs`disk, d.fs`wflag, d.fs`mirrorLost, d.fs`win, d.fs`winsect
    ensures (res == FR_OK || res == FR_DISK_ERR) && k < |list|
    ensures res == FR_OK ==> Ready(d, k, list[k := e]) && IsLfnEntry(e, n, ord, sum)
  {
    var was;
    ReadyAnywhere(d, k, list);
    ReadyIs(d, k, list);
    Listed(d);
    res, was := ToSlot(d, k);
    e := was;
    if res == FR_OK {
      var now := PutLfn(n, was, ord, sum);
      e := now;
      Listed(d);
      WriteSlot(d, now, k, list);
    }
  }

  /** The short-name entry of an object. */
  function SfnEntry(f: Sfn, body: bool, ext: bool): (e: Slot)
    ensures IsSfnEntry(e, f, body, ext)
  {
    f + [0, CaseFlags(body, ext)] + [0, 0, 0, 0, 0, 0, 0, 0, 0, 0, 0, 0, 0, 0, 0, 0, 0, 0, 0]
  }

  /** The short-name entry stored. */
  method StoreSfn(d: Dir, f: Sfn, body: bool, ext: bool, ghost k: nat, ghost list: seq<Slot>) returns (res: FResult)
    requires Ready(d, k, list)
    modifies d.fs`disk, d.fs`wflag, d.fs`mirrorLost, d.fs`win, d.fs`winsect
    ensures (res == FR_OK || res == FR_DISK_ERR) && k < |list|
    ensures res == FR_OK ==> Ready(d, k, list[k := SfnEntry(f, body, ext)])
  {
    var was;
    ReadyAnywhere(d, k, list);
    ReadyIs(d, k, list);
    Listed(d);
    res, was := ToSlot(d, k);
    if res == FR_OK {
      Listed(d);
      WriteSlot(d, SfnEntry(f, body, ext), k, list);
    }
  }

  /** To the next entry, if there is one. */
  method Step(d: Dir, ghost k: nat, ghost list: seq<Slot>) returns (res: FResult)
    requires Ready(d, k, list)
    modifies d, d.fs
    ensures && Ready(d, -1, list)
            && (res == FR_OK ==>
                  Ready(d, k + 1, list) && k + 1 < |list| && d.dptr == old(d.dptr) + ENTRY_SIZE < MAX_DIR)
    ensures res == FR_OK || res == FR_NO_FILE || res == FR_DISK_ERR
    ensures res == FR_NO_FILE ==> d.sect == 0 && |list| <= k + 1
  {
    ghost var n;
    ReadyIs(d, k, list);
    Listed(d);
    PlaceKind(d.fs.g, d.table, k, d.Here());
    ListedAt(d, k + 1);
    res, n := d.Next(false, k);
    Listed(d);
    ReadyIs(d, -1, list);
    if res == FR_OK {
      PlaceKind(d.fs.g, d.table, k + 1, d.Here());
      ReadyIs(d, k + 1, list);
    }
  }

  /** To an entry, if there is such a one. */
  method GoTo(d: Dir, target: nat, ghost a: nat, ghost list: seq<Slot>) returns (res: FResult)
    requires Ready(d, -1, list) && target == ENTRY_SIZE * a
    modifies d`dptr, d`clust, d`sect, d.fs`disk, d.fs`wflag, d.fs`mirrorLost, d.fs`win, d.fs`winsect
    ensures Ready(d, -1, list) && (res == FR_OK ==> Ready(d, a, list) && a < |list|)
    ensures res == FR_OK || res == FR_INT_ERR || res == FR_DISK_ERR
    ensures res == FR_INT_ERR ==> |list| <= a
  {
    ReadyIs(d, -1, list);
    Listed(d);
    ListedAt(d, a);
    SlotOffset(a);
    res := d.Sdi(target);
    Listed(d);
    ReadyIs(d, -1, list);
    ReadyIs(d, a, list);
  }

  // What the table's growing does to its entries.

  lemma SlotKept(g: VolumeGeometry, rest: Disk, chain: seq<nat>, n: nat, z: Sector, k: nat)
    requires Proper(g, chain + [n]) && chain != [] && |rest| == g.sectors - RestBase(g) && HasSector(g, chain, k / 16)
    ensures Proper(g, chain) && 2 <= n < g.nFatent && HasSector(g, chain + [n], k / 16)
    ensures SlotAt(g, FilledCluster(g, rest, n, z), Chained(chain + [n]), k) == SlotAt(g, rest, Chained(chain), k)
  {
    LbaPrefix(g, chain, n, k / 16);
    ProperAt(g, chain + [n], |chain|);
    assert n !in chain;
    PartApart(g, rest, chain, n, z, k / 16);
  }

  lemma SlotNew(g: VolumeGeometry, rest: Disk, chain: seq<nat>, n: nat, z: Sector, k: nat)
    requires Proper(g, chain + [n]) && chain != [] && |rest| == g.sectors - RestBase(g)
    requires HasSector(g, chain + [n], k / 16) && !HasSector(g, chain, k / 16)
    ensures && 2 <= n < g.nFatent
            && SlotAt(g, FilledCluster(g, rest, n, z), Chained(chain + [n]), k) ==
                 z[k % 16 * ENTRY_SIZE..k % 16 * ENTRY_SIZE + 32]
  {
    LbaPrefix(g, chain, n, k / 16);
    ProperAt(g, chain + [n], |chain|);
    ClusterFits(g, n);
    FilledAt(rest, ClusterBase(g, n) - RestBase(g), g.csize, z, Lba(g, chain + [n], k / 16));
  }

  /** A table that has grown has its entries as they were, and new ones filled like the new clusters. */
  lemma {:induction false} GrownSlot(g: VolumeGeometry, t: Table, rest: Disk, t': Table, rest': Disk, ns: seq<nat>,
      z: Sector, k: nat)
    requires GrewBy(g, t, rest, t', rest', ns, z) && ProperTable(g, t) && |rest| == g.sectors - RestBase(g)
    ensures ProperTable(g, t') && |rest'| == |rest|
    ensures HasPart(g, t, k / 16) ==> HasPart(g, t', k / 16) && SlotAt(g, rest', t', k) == SlotAt(g, rest, t, k)
    ensures HasPart(g, t', k / 16) && !HasPart(g, t, k / 16) ==>
              SlotAt(g, rest', t', k) == z[k % 16 * ENTRY_SIZE..k % 16 * ENTRY_SIZE + 32]
    decreases |ns|
  {
    if ns != [] {
      var n := ns[0];
      var t1, rest1 := Chained(t.chain + [n]), FilledCluster(g, rest, n, z);
      GrownSlot(g, t1, rest1, t', rest', ns[1..], z, k);
      if HasPart(g, t, k / 16) {
        SlotKept(g, rest, t.chain, n, z, k);
      } else if HasPart(g, t1, k / 16) {
        SlotNew(g, rest, t.chain, n, z, k);
      }
    }
  }

  lemma GrownSlots(g: VolumeGeometry, t: Table, rest: Disk, t': Table, rest': Disk, ns: seq<nat>)
    requires GrewBy(g, t, rest, t', rest', ns, ZERO_SECTOR) && ProperTable(g, t) && |rest| == g.sectors - RestBase(g)
    ensures ProperTable(g, t') && |rest'| == |rest| && Extended(Slots(g, rest, t), Slots(g, rest', t'))
  {
    GrownSlot(g, t, rest, t', rest', ns, ZERO_SECTOR, 0);
    var was, now := Slots(g, rest, t), Slots(g, rest', t');
    forall i | 0 <= i < |was| ensures i < |now| && now[i] == was[i] {
      GrownAt(g, t, rest, t', rest', ns, i);
    }
    if |was| > 0 {
      GrownAt(g, t, rest, t', rest', ns, |was| - 1);
    }
    assert was <= now;
    forall i | |was| <= i < |now| ensures now[i][0] == 0 {
      GrownAt(g, t, rest, t', rest', ns, i);
    }
  }

  lemma GrownAt(g: VolumeGeometry, t: Table, rest: Disk, t': Table, rest': Disk, ns: seq<nat>, i: nat)
    requires GrewBy(g, t, rest, t', rest', ns, ZERO_SECTOR) && ProperTable(g, t) && |rest| == g.sectors - RestBase(g)
    ensures ProperTable(g, t') && |rest'| == |rest|
    ensures i < |Slots(g, rest, t)| ==> i < |Slots(g, rest', t')| && Slots(g, rest', t')[i] == Slots(g, rest, t)[i]
    ensures |Slots(g, rest, t)| <= i < |Slots(g, rest', t')| ==> Slots(g, rest', t')[i][0] == 0
  {
    GrownSlot(g, t, rest, t', rest', ns, ZERO_SECTOR, i);
    GrownOld(g, t, rest, t', rest', i);
    GrownNew(g, t, rest, t', rest', ZERO_SECTOR, i);
  }

  lemma GrownOld(g: VolumeGeometry, t: Table, rest: Disk, t': Table, rest': Disk, i: nat)
    requires ProperTable(g, t) && ProperTable(g, t') && |rest'| == |rest| == g.sectors - RestBase(g)
    requires HasPart(g, t, i / 16) ==> HasPart(g, t', i / 16) && SlotAt(g, rest', t', i) == SlotAt(g, rest, t, i)
    ensures i < |Slots(g, rest, t)| ==> i < |Slots(g, rest', t')| && Slots(g, rest', t')[i] == Slots(g, rest, t)[i]
  {
    SlotsAre(g, rest, t, i);
    SlotsAre(g, rest', t', i);
  }

  lemma GrownNew(g: VolumeGeometry, t: Table, rest: Disk, t': Table, rest': Disk, z: Sector, i: nat)
    requires ProperTable(g, t) && ProperTable(g, t') && |rest'| == |rest| == g.sectors - RestBase(g) && z == ZERO_SECTOR
    requires HasPart(g, t', i / 16) && !HasPart(g, t, i / 16) ==>
               SlotAt(g, rest', t', i) == z[i % 16 * ENTRY_SIZE..i % 16 * ENTRY_SIZE + 32]
    ensures |Slots(g, rest, t)| <= i < |Slots(g, rest', t')| ==> Slots(g, rest', t')[i][0] == 0
  {
    SlotsAre(g, rest, t, i);
    SlotsAre(g, rest', t', i);
  }

  /** There is no run of `m` free entries in a directory, and it cannot be stretched: it is the fixed root directory,
      no cluster is free, or it is as long as a directory can be. The countdown only keeps proofs from looking inside
      where CrampedIs is not called. */
  predicate Cramped(fixed: bool, free: nat, list: seq<Slot>, m: nat) {
    CrampedAfter(fixed, free, list, m, |list|)
  }

  predicate OpenCramped(fixed: bool, free: nat, list: seq<Slot>, m: nat) {
    && (forall a: nat :: a + m <= |list| ==> !FreeFrom(list, a, m))
    && (fixed || free == 0 || MAX_DIR <= ENTRY_SIZE * |list|)
  }

  predicate CrampedAfter(fixed: bool, free: nat, list: seq<Slot>, m: nat, countdown: nat) {
    if countdown > 0 then CrampedAfter(fixed, free, list, m, countdown - 1) else OpenCramped(fixed, free, list, m)
  }

  lemma {:induction false} CrampedAfterIs(fixed: bool, free: nat, list: seq<Slot>, m: nat, countdown: nat)
    ensures CrampedAfter(fixed, free, list, m, countdown) <==> OpenCramped(fixed, free, list, m)
  {
    if countdown > 0 {
      CrampedAfterIs(fixed, free, list, m, countdown - 1);
    }
  }

  lemma CrampedIs(fixed: bool, free: nat, list: seq<Slot>, m: nat)
    ensures Cramped(fixed, free, list, m) <==> OpenCramped(fixed, free, list, m)
  {
    CrampedAfterIs(fixed, free, list, m, |list|);
  }

  ghost predicate NoRoom(d: Dir, m: nat)
    reads d, d.fs
  {
    NoRoomAfter(d, m, m)
  }

  ghost predicate NoRoomAfter(d: Dir, m: nat, countdown: nat)
    reads d, d.fs
  {
    if countdown > 0 then NoRoomAfter(d, m, countdown - 1)
    else d.Valid() && Cramped(d.table.Static?, FreeCount(d.fs.Fat()), Listing(d), m)
  }

  lemma {:induction false} NoRoomAfterIs(d: Dir, m: nat, countdown: nat)
    ensures NoRoomAfter(d, m, countdown) <==>
            d.Valid() && Cramped(d.table.Static?, FreeCount(d.fs.Fat()), Listing(d), m)
  {
    if countdown > 0 {
      NoRoomAfterIs(d, m, countdown - 1);
    }
  }

  lemma NoRoomIs(d: Dir, m: nat)
    ensures NoRoom(d, m) <==> d.Valid() && Cramped(d.table.Static?, FreeCount(d.fs.Fat()), Listing(d), m)
  {
    NoRoomAfterIs(d, m, m);
  }

  predicate FreeFrom(list: seq<Slot>, a: nat, m: nat)
    requires a + m <= |list|
  {
    forall i :: a <= i < a + m ==> IsFree(list[i])
  }

  lemma {:induction false} RunCounted(g: VolumeGeometry, rest: Disk, t: Table, a: nat, b: nat)
    requires ProperTable(g, t) && |rest| == g.sectors - RestBase(g) && a <= b <= |Slots(g, rest, t)|
    requires FreeFrom(Slots(g, rest, t), a, b - a)
    ensures (b == 0 || HasPart(g, t, (b - 1) / 16)) && FreeRun(g, rest, t, b) >= b - a
    decreases b
  {
    if b > 0 {
      SlotsAre(g, rest, t, b - 1);
      if a < b {
        RunCounted(g, rest, t, a, b - 1);
        FreeIs(g, rest, t, b - 1);
      }
    }
  }

  lemma {:induction false} RunShort(g: VolumeGeometry, rest: Disk, t: Table, k: nat, m: nat, b: nat)
    requires ProperTable(g, t) && |rest| == g.sectors - RestBase(g) && (k == 0 || HasPart(g, t, (k - 1) / 16))
    requires NoRun(g, rest, t, k, m) && b <= k && (b == 0 || HasPart(g, t, (b - 1) / 16))
    ensures FreeRun(g, rest, t, b) < m
    decreases k
  {
    if b < k {
      PartBefore(g, t, if k == 1 then 0 else (k - 2) / 16, (k - 1) / 16);
      RunShort(g, rest, t, k - 1, m, b);
    }
  }

  lemma NotFreeFrom(g: VolumeGeometry, rest: Disk, t: Table, k: nat, m: nat, a: nat)
    requires ProperTable(g, t) && |rest| == g.sectors - RestBase(g) && (k == 0 || HasPart(g, t, (k - 1) / 16))
    requires NoRun(g, rest, t, k, m) && a + m <= |Slots(g, rest, t)| <= k
    ensures !FreeFrom(Slots(g, rest, t), a, m)
  {
    if FreeFrom(Slots(g, rest, t), a, m) {
      RunCounted(g, rest, t, a, a + m);
      RunShort(g, rest, t, k, m, a + m);
      assert false;
    }
  }

  lemma SearchedInVain(g: VolumeGeometry, rest: Disk, t: Table, k: nat, n: nat, m: nat)
    requires ProperTable(g, t) && |rest| == g.sectors - RestBase(g)
    requires Searched(g, rest, t, k, n, m) && |Slots(g, rest, t)| <= k
    ensures k == 0 || HasPart(g, t, (k - 1) / 16)
    ensures forall a: nat :: a + m <= |Slots(g, rest, t)| ==> !FreeFrom(Slots(g, rest, t), a, m)
  {
    SearchedIs(g, rest, t, k, n, m);
    forall a: nat | a + m <= |Slots(g, rest, t)| ensures !FreeFrom(Slots(g, rest, t), a, m) {
      NotFreeFrom(g, rest, t, k, m, a);
    }
  }

  lemma ExhaustedNoRoom(d: Dir, k: nat, n: nat, m: nat)
    requires d.Exhausted(k, n, m)
    ensures NoRoom(d, m)
  {
    Listed(d);
    ListedAt(d, k);
    SearchedInVain(d.fs.g, d.fs.Image().rest, d.table, k, n, m);
    if MAX_DIR <= ENTRY_SIZE * k {
      WholeLength(d, k);
    }
    CrampedIs(d.table.Static?, FreeCount(d.fs.Fat()), Listing(d), m);
    NoRoomIs(d, m);
  }

  lemma WholeLength(d: Dir, k: nat)
    requires d.Valid() && MAX_DIR <= ENTRY_SIZE * k && (k == 0 || HasPart(d.fs.g, d.table, (k - 1) / 16))
    ensures MAX_DIR <= ENTRY_SIZE * |Listing(d)|
  {
    var n := |Listing(d)|;
    Listed(d);
    SlotsAre(d.fs.g, d.fs.Image().rest, d.table, n);
    if ENTRY_SIZE * n < MAX_DIR {
      PartBefore(d.fs.g, d.table, n / 16, (k - 1) / 16);
    }
  }

  /** A run of free entries reserved, with the directory object on its last one. */
  method Reserve(d: Dir, nEnt: nat, ghost was: seq<Slot>) returns (res: FResult, ghost k: nat, ghost grown: seq<Slot>)
    requires Ready(d, -1, was) && 0 < nEnt
    modifies d, d.fs
    ensures res == FR_OK || res == FR_DISK_ERR || (res == FR_DENIED && NoRoom(d, nEnt))
    ensures res == FR_OK ==> Ready(d, k, grown) && nEnt <= k + 1 && Reserved(was, grown, k + 1 - nEnt, k) && k < |grown|
  {
    ReadyIs(d, -1, was);
    Listed(d);
    ghost var left, added;
    ghost var g, t, rest := d.fs.g, d.table, d.fs.Image().rest;
    grown := [];
    res, k, left, added := d.Alloc(nEnt);
    if res == FR_OK {
      Listed(d);
      grown := Listing(d);
      GrownReserved(g, t, rest, d.table, d.fs.Image().rest, added, k, nEnt);
      ReadyIs(d, k, grown);
    } else if res == FR_DENIED {
      ExhaustedNoRoom(d, k, left, nEnt);
    }
  }

  lemma GrownReserved(g: VolumeGeometry, t: Table, rest: Disk, t': Table, rest': Disk, ns: seq<nat>, k: nat, m: nat)
    requires GrewBy(g, t, rest, t', rest', ns, ZERO_SECTOR) && ProperTable(g, t) && |rest| == g.sectors - RestBase(g)
    requires FoundBlock(g, rest', t', k, m)
    ensures m <= k + 1 && Reserved(Slots(g, rest, t), Slots(g, rest', t'), k + 1 - m, k) && k < |Slots(g, rest', t')|
  {
    GrownSlots(g, t, rest, t', rest', ns);
    BlockRoomy(g, rest', t', k, m);
    ReservedIs(Slots(g, rest, t), Slots(g, rest', t'), k + 1 - m, k);
  }

  /** The entry before a run of free entries up to `k` is not free. */
  lemma {:induction false} RunBegins(g: VolumeGeometry, rest: Disk, t: Table, k: nat, m: nat)
    requires ProperTable(g, t) && |rest| == g.sectors - RestBase(g) && HasPart(g, t, k / 16)
    requires FreeRun(g, rest, t, k + 1) == m <= k
    ensures HasPart(g, t, (k - m) / 16) && !FreeSlot(g, rest, t, k - m)
    decreases k
  {
    PartBefore(g, t, (k - m) / 16, k / 16);
    if m > 0 {
      PartBefore(g, t, (k - 1) / 16, k / 16);
      RunBegins(g, rest, t, k - 1, m - 1);
    }
  }

  lemma BlockRoomy(g: VolumeGeometry, rest: Disk, t: Table, k: nat, m: nat)
    requires FoundBlock(g, rest, t, k, m)
    ensures m <= k + 1 && Roomy(Slots(g, rest, t), k + 1 - m, k)
  {
    var d := Slots(g, rest, t);
    SlotsAre(g, rest, t, k);
    forall i | k + 1 - m <= i <= k ensures IsFree(d[i]) {
      RoomAt(g, rest, t, k, m, i);
    }
    if m <= k {
      RoomBefore(g, rest, t, k, m);
    }
  }

  lemma FreeIs(g: VolumeGeometry, rest: Disk, t: Table, i: nat)
    requires ProperTable(g, t) && |rest| == g.sectors - RestBase(g) && HasSlot(g, t, i)
    ensures i < |Slots(g, rest, t)| && (IsFree(Slots(g, rest, t)[i]) <==> FreeSlot(g, rest, t, i))
  {
    SlotsAre(g, rest, t, i);
  }

  lemma RoomAt(g: VolumeGeometry, rest: Disk, t: Table, k: nat, m: nat, i: nat)
    requires FoundBlock(g, rest, t, k, m) && k < i + m && i <= k
    ensures i < |Slots(g, rest, t)| && IsFree(Slots(g, rest, t)[i])
  {
    SlotBefore(g, t, i, k);
    FreeIs(g, rest, t, i);
    BlockIsFree(g, rest, t, k, m, i);
  }

  lemma RoomBefore(g: VolumeGeometry, rest: Disk, t: Table, k: nat, m: nat)
    requires FoundBlock(g, rest, t, k, m) && m <= k
    ensures k - m < |Slots(g, rest, t)| && !IsFree(Slots(g, rest, t)[k - m])
  {
    var i := k - m;
    SlotBefore(g, t, i, k);
    RunBegins(g, rest, t, k, m);
    FreeIs(g, rest, t, i);
  }

  /** Long-name entries laid from `a` up to `i`; all others are as they were. */
  predicate OpenLaid(was: seq<Slot>, now: seq<Slot>, a: nat, i: nat, n: Name, sum: byte) {
    && a <= i <= |was| == |now| && i - a <= LastPart(n)
    && (forall j :: 0 <= j < |now| && !(a <= j < i) ==> now[j] == was[j])
    && (forall j :: a <= j < i ==> LastPart(n) - (j - a) > 0 && IsLfnEntry(now[j], n, LastPart(n) - (j - a), sum))
  }

  /** OpenLaid, reached through a countdown so that a proof looks into it only where it calls LaidToIs. */
  predicate LaidAfter(was: seq<Slot>, now: seq<Slot>, a: nat, i: nat, n: Name, sum: byte, countdown: nat) {
    if countdown > 0 then LaidAfter(was, now, a, i, n, sum, countdown - 1) else OpenLaid(was, now, a, i, n, sum)
  }

  predicate LaidTo(was: seq<Slot>, now: seq<Slot>, a: nat, i: nat, n: Name, sum: byte) {
    LaidAfter(was, now, a, i, n, sum, |was|)
  }

  lemma {:induction false} LaidAfterIs(was: seq<Slot>, now: seq<Slot>, a: nat, i: nat, n: Name, sum: byte,
      countdown: nat)
    ensures LaidAfter(was, now, a, i, n, sum, countdown) <==> OpenLaid(was, now, a, i, n, sum)
  {
    if countdown > 0 {
      LaidAfterIs(was, now, a, i, n, sum, countdown - 1);
    }
  }

  lemma LaidToIs(was: seq<Slot>, now: seq<Slot>, a: nat, i: nat, n: Name, sum: byte)
    ensures LaidTo(was, now, a, i, n, sum) <==> OpenLaid(was, now, a, i, n, sum)
  {
    LaidAfterIs(was, now, a, i, n, sum, |was|);
  }

  lemma {:induction false} LaidRun(was: seq<Slot>, now: seq<Slot>, a: nat, i: nat, n: Name, sum: byte, j: nat)
    requires LaidTo(was, now, a, i, n, sum) && i - a == LastPart(n) && a <= j <= i
    ensures LfnRun(now, j, n, i - j, sum) && |now| == |was|
    decreases i - j
  {
    LaidToIs(was, now, a, i, n, sum);
    if j < i {
      LaidRun(was, now, a, i, n, sum, j + 1);
    }
  }

  lemma LaidNext(was: seq<Slot>, now: seq<Slot>, a: nat, i: nat, n: Name, sum: byte, e: Slot)
    requires && LaidTo(was, now, a, i, n, sum) && a <= i < |was| && i - a < LastPart(n)
             && IsLfnEntry(e, n, LastPart(n) - (i - a), sum)
    ensures i < |now| == |was| && LaidTo(was, now[i := e], a, i + 1, n, sum)
  {
    LaidToIs(was, now, a, i, n, sum);
    LaidToIs(was, now[i := e], a, i + 1, n, sum);
  }

  lemma LaidNone(was: seq<Slot>, a: nat, n: Name, sum: byte)
    requires a <= |was|
    ensures LaidTo(was, was, a, a, n, sum)
  {
    LaidToIs(was, was, a, a, n, sum);
  }

  // The entries of an item.

  /** The long-name entries of a name stored, last part first, and the directory object behind them. */
  method StoreParts(d: Dir, n: Name, sum: byte, ghost was: seq<Slot>, ghost a: nat)
      returns (res: FResult, ghost now: seq<Slot>)
    requires Ready(d, a, was) && n != [] && |n| <= MAX_LFN && a + LastPart(n) < |was|
    modifies d, d.fs
    ensures res == FR_OK || res == FR_DISK_ERR
    ensures res == FR_OK ==> Ready(d, a + LastPart(n), now) && LaidTo(was, now, a, a + LastPart(n), n, sum)
  {
    var ord: nat := LastPart(n);
    res, now := FR_OK, was;
    LaidNone(was, a, n, sum);
    while res == FR_OK && ord > 0
      invariant ord <= LastPart(n) && (res == FR_OK || res == FR_DISK_ERR)
      invariant res == FR_OK ==>
                  Ready(d, a + (LastPart(n) - ord), now) && LaidTo(was, now, a, a + (LastPart(n) - ord), n, sum)
      decreases ord, res == FR_OK
    {
      res, now := StorePart(d, n, ord, sum, was, now, a, a + (LastPart(n) - ord));
      if res == FR_OK {
        ord := ord - 1;
      }
    }
  }

  method StorePart(d: Dir, n: Name, ord: nat, sum: byte, ghost was: seq<Slot>, ghost now: seq<Slot>, ghost a: nat,
      ghost i: nat)
    returns (res: FResult, ghost next: seq<Slot>)
    requires Ready(d, i, now) && n != [] && |n| <= MAX_LFN && 0 < ord <= LastPart(n) && i == a + (LastPart(n) - ord)
    requires LaidTo(was, now, a, i, n, sum) && a + LastPart(n) < |was|
    modifies d, d.fs
    ensures res == FR_OK || res == FR_DISK_ERR
    ensures res == FR_OK ==> Ready(d, i + 1, next) && LaidTo(was, next, a, i + 1, n, sum)
  {
    ghost var e;
    next := now;
    res, e := StoreLfn(d, n, ord, sum, i, now);
    if res == FR_OK {
      LaidNext(was, now, a, i, n, sum, e);
      next := now[i := e];
      res := Step(d, i, next);
    }
  }

  lemma {:induction false} RunKept(d: seq<Slot>, k: nat, e: Slot, j: nat, n: Name, ord: nat, sum: byte)
    requires LfnRun(d, j, n, ord, sum) && j + ord <= k < |d|
    ensures LfnRun(d[k := e], j, n, ord, sum)
    decreases ord
  {
    if ord > 0 {
      RunKept(d, k, e, j + 1, n, ord - 1, sum);
    }
  }

  /** The block complete. */
  lemma BlockDone(was: seq<Slot>, mid: seq<Slot>, laid: seq<Slot>, a: nat, k: nat, o: Item)
    requires IsItem(o) && Reserved(was, mid, a, k) && k + 1 == a + Length(o)
    requires if o.short.lfn then LaidTo(mid, laid, a, k, o.name, SumFrom(o.fn, 0)) else laid == mid
    ensures k < |laid| && Registered(was, mid, laid[k := SfnEntry(o.fn, o.short.body, o.short.ext)], a, o)
  {
    var e := SfnEntry(o.fn, o.short.body, o.short.ext);
    ReservedIs(was, mid, a, k);
    if o.short.lfn {
      LaidToIs(mid, laid, a, k, o.name, SumFrom(o.fn, 0));
      LaidRun(mid, laid, a, k, o.name, SumFrom(o.fn, 0), a);
      RunKept(laid, k, e, a, o.name, LastPart(o.name), SumFrom(o.fn, 0));
    }
    BlockIs(laid[k := e], a, o);
    RegisteredIs(was, mid, laid[k := e], a, o);
  }

  /** The long-name entries filled if there are any, from the last entry of the block back to its first and on again. */
  method FillLong(d: Dir, n: Name, r: Short, f: Sfn, m: nat, ghost mid: seq<Slot>, ghost a: nat)
      returns (res: FResult, ghost laid: seq<Slot>)
    requires Ready(d, a + m, mid) && n != [] && |n| <= MAX_LFN && m == Parts(n, r.lfn) && a + m < |mid|
    modifies d, d.fs
    ensures res == FR_OK || res == FR_DISK_ERR
    ensures res == FR_OK ==> Ready(d, a + m, laid)
    ensures res == FR_OK ==> if r.lfn then LaidTo(mid, laid, a, a + m, n, SumFrom(f, 0)) else laid == mid
  {
    res, laid := FR_OK, mid;
    if m > 0 {
      Offset(d, a + m, mid);
      ReadyAnywhere(d, a + m, mid);
      res := GoTo(d, d.dptr - m * ENTRY_SIZE, a, mid);
      if res == FR_OK {
        var sum := SumSfn(f);
        res, laid := StoreParts(d, n, sum, mid, a);
      }
    }
  }

  lemma Offset(d: Dir, k: nat, list: seq<Slot>)
    requires Ready(d, k, list)
    ensures d.dptr == ENTRY_SIZE * k
  {
    ReadyIs(d, k, list);
    PlaceKind(d.fs.g, d.table, k, d.Here());
  }

  /** The reserved entries filled, the long-name entries first. */
  method FillBlock(d: Dir, n: Name, r: Short, f: Sfn, m: nat, ghost was: seq<Slot>, ghost mid: seq<Slot>, ghost a: nat)
    returns (res: FResult, ghost now: seq<Slot>)
    requires Ready(d, a + m, mid) && IsItem(Item(n, r, f)) && n != [] && |n| <= MAX_LFN && m == Parts(n, r.lfn)
    requires Reserved(was, mid, a, a + m) && a + m < |mid|
    modifies d, d.fs
    ensures res == FR_OK || res == FR_DISK_ERR
    ensures res == FR_OK ==> Ready(d, a + m, now) && Registered(was, mid, now, a, Item(n, r, f))
  {
    ghost var laid;
    now := mid;
    res, laid := FillLong(d, n, r, f, m, mid, a);
    if res == FR_OK {
      BlockDone(was, mid, laid, a, a + m, Item(n, r, f));
      now := laid[a + m := SfnEntry(f, r.body, r.ext)];
      res := StoreSfn(d, f, r.body, r.ext, a + m, laid);
    }
  }

  /** The entries of an item put into the first run of free entries that is long enough. */
  method StoreItem(d: Dir, n: Name, r: Short, f: Sfn, ghost was: seq<Slot>)
    returns (res: FResult, ghost a: nat, ghost mid: seq<Slot>, ghost now: seq<Slot>)
    requires Ready(d, -1, was) && IsItem(Item(n, r, f)) && n != [] && |n| <= MAX_LFN
    modifies d, d.fs
    ensures res == FR_OK || res == FR_DISK_ERR || (res == FR_DENIED && NoRoom(d, Parts(n, r.lfn) + 1))
    ensures res == FR_OK ==> Ready(d, a + Parts(n, r.lfn), now) && Registered(was, mid, now, a, Item(n, r, f))
  {
    var m := if r.lfn then (|n| + 12) / 13 else 0;
    ghost var k;
    a, now := 0, was;
    res, k, mid := Reserve(d, m + 1, was);
    if res == FR_OK {
      a := k - m;
      res, now := FillBlock(d, n, r, f, m, was, mid, a);
    }
  }

  // Choosing a short name.

  /** dir_find for a short name alone: whether the directory has it. */
  method FindSfn(d: Dir, f: Sfn, ghost list: seq<Slot>) returns (res: FResult)
    requires Ready(d, -1, list)
    modifies d, d.fs
    ensures Ready(d, -1, list) && (res == FR_OK || res == FR_NO_FILE || res == FR_DISK_ERR)
    ensures res == FR_OK ==> FindFrom(list, 0, f)
    ensures res == FR_NO_FILE ==> !FindFrom(list, 0, f)
  {
    HasFirst(d, list);
    res := GoTo(d, 0, 0, list);
    ghost var k: nat := 0;
    while res == FR_OK
      invariant Ready(d, -1, list) && (res == FR_OK || res == FR_NO_FILE || res == FR_DISK_ERR)
      invariant res == FR_OK ==> Ready(d, k, list) && FindFrom(list, 0, f) == FindFrom(list, k, f)
      invariant res == FR_NO_FILE ==> !FindFrom(list, 0, f)
      decreases res == FR_OK, |list| - k
    {
      var e;
      res, e := ReadSlot(d, k, list);
      ReadyAnywhere(d, k, list);
      if res != FR_OK {
        return;
      }
      if e[0] == 0 {
        return FR_NO_FILE;
      }
      if e[0] != DELETED && Attr(e) / AM_VOL % 2 == 0 && e[..11] == f {
        return FR_OK;
      }
      res := Step(d, k, list);
      k := k + 1;
    }
  }

  lemma HasFirst(d: Dir, list: seq<Slot>)
    requires Ready(d, -1, list)
    ensures 0 < |list|
  {
    ReadyIs(d, -1, list);
    Listed(d);
    DescribesKind(d.fs.g, d.fs.Fat(), d.table, d.Start());
    FirstSlot(d.fs.g, d.table);
    ListedAt(d, 0);
  }

  /** The directory has the short name with number `k`. */
  ghost predicate Taken(list: seq<Slot>, src: Sfn, n: Name, k: nat) {
    exists f: Sfn :: HasNumber(src, n, k, f) && FindFrom(list, 0, f)
  }

  /** A short name with number `i`, which the directory does not have, though it has all those before. */
  ghost predicate FirstUntaken(list: seq<Slot>, src: Sfn, n: Name, i: nat, f: Sfn) {
    && 1 <= i < 100 && HasNumber(src, n, i, f) && !FindFrom(list, 0, f)
    && forall k :: 1 <= k < i ==> Taken(list, src, n, k)
  }

  /** The short name lost something, and all numbered ones are taken. This and Chosen are reached through a countdown
      so that a proof looks into them only where it calls AllTakenIs and ChosenIs. */
  ghost predicate AllTaken(r: Short, n: Name, list: seq<Slot>) {
    AllTakenAfter(r, n, list, |n|)
  }

  ghost predicate OpenAllTaken(r: Short, n: Name, list: seq<Slot>) {
    r.loss && forall k :: 1 <= k < 100 ==> Taken(list, r.fn, n, k)
  }

  ghost predicate AllTakenAfter(r: Short, n: Name, list: seq<Slot>, countdown: nat) {
    if countdown > 0 then AllTakenAfter(r, n, list, countdown - 1) else OpenAllTaken(r, n, list)
  }

  lemma {:induction false} AllTakenAfterIs(r: Short, n: Name, list: seq<Slot>, countdown: nat)
    ensures AllTakenAfter(r, n, list, countdown) <==> OpenAllTaken(r, n, list)
  {
    if countdown > 0 {
      AllTakenAfterIs(r, n, list, countdown - 1);
    }
  }

  lemma AllTakenIs(r: Short, n: Name, list: seq<Slot>)
    ensures AllTaken(r, n, list) <==> OpenAllTaken(r, n, list)
  {
    AllTakenAfterIs(r, n, list, |n|);
  }

  /** The short name chosen: the first numbered one that is not taken, if the short name lost something. */
  ghost predicate Chosen(r: Short, n: Name, list: seq<Slot>, f: Sfn) {
    ChosenAfter(r, n, list, f, |n|)
  }

  ghost predicate OpenChosen(r: Short, n: Name, list: seq<Slot>, f: Sfn) {
    if r.loss then exists i :: FirstUntaken(list, r.fn, n, i, f) else f == r.fn
  }

  ghost predicate ChosenAfter(r: Short, n: Name, list: seq<Slot>, f: Sfn, countdown: nat) {
    if countdown > 0 then ChosenAfter(r, n, list, f, countdown - 1) else OpenChosen(r, n, list, f)
  }

  lemma {:induction false} ChosenAfterIs(r: Short, n: Name, list: seq<Slot>, f: Sfn, countdown: nat)
    ensures ChosenAfter(r, n, list, f, countdown) <==> OpenChosen(r, n, list, f)
  {
    if countdown > 0 {
      ChosenAfterIs(r, n, list, f, countdown - 1);
    }
  }

  lemma ChosenIs(r: Short, n: Name, list: seq<Slot>, f: Sfn)
    ensures Chosen(r, n, list, f) <==> OpenChosen(r, n, list, f)
  {
    ChosenAfterIs(r, n, list, f, |n|);
  }

  /** A short name for an item: that of the name, or if it lost something the first numbered one that the directory
      does not have. */
  method ChooseSfn(d: Dir, n: Name, r: Short, ghost list: seq<Slot>) returns (res: FResult, f: Sfn)
    requires Ready(d, -1, list) && ShortOf(n, r) && Trimmed(n) && |n| <= MAX_LFN
    modifies d, d.fs
    ensures Ready(d, -1, list) && (res == FR_OK || res == FR_DENIED || res == FR_DISK_ERR)
    ensures res == FR_OK ==> IsItem(Item(n, r, f)) && Chosen(r, n, list, f)
    ensures res == FR_DENIED ==> AllTaken(r, n, list)
  {
    f := r.fn;
    res := FR_OK;
    ShortOfIs(n, r);
    if r.loss {
      var i := 1;
      while i < 100 && res == FR_OK
        invariant 1 <= i <= 100 && Ready(d, -1, list) && (res == FR_OK || res == FR_NO_FILE || res == FR_DISK_ERR)
        invariant forall k :: 1 <= k < i ==> Taken(list, r.fn, n, k)
        invariant res == FR_NO_FILE ==> Usable(f) && FirstUntaken(list, r.fn, n, i, f)
        decreases 100 - i, res == FR_OK
      {
        f := GenNumName(r.fn, n, i);
        res := FindSfn(d, f, list);
        if res == FR_OK {
          i := i + 1;
        }
      }
      if i == 100 {
        AllTakenIs(r, n, list);
        return FR_DENIED, f;
      }
      if res != FR_NO_FILE {
        return;
      }
      res := FR_OK;
    }
    ItemIs(Item(n, r, f));
    ChosenIs(r, n, list, f);
  }

  /** A name is refused: its short name lost something and all 99 numbered ones are taken, or there is no room. */
  ghost predicate Refused(d: Dir, n: Name, r: Short, was: seq<Slot>)
    reads d, d.fs
  {
    AllTaken(r, n, was) || NoRoom(d, Parts(n, r.lfn) + 1)
  }

  /** dir_register: a name put into a directory, with its own short name or a numbered one. */
  method Register(d: Dir, n: Name, r: Short, ghost was: seq<Slot>)
    returns (res: FResult, ghost o: Item, ghost a: nat, ghost mid: seq<Slot>, ghost now: seq<Slot>)
    requires Ready(d, -1, was) && Trimmed(n) && |n| <= MAX_LFN && ShortOf(n, r)
    modifies d, d.fs
    ensures res == FR_OK || res == FR_DISK_ERR || (res == FR_DENIED && Refused(d, n, r, was))
    ensures res == FR_OK ==> o.name == n && o.short == r && Chosen(r, n, was, o.fn)
    ensures res == FR_OK ==> Ready(d, a + Parts(n, r.lfn), now) && Registered(was, mid, now, a, o)
  {
    var f;
    a, mid, now := 0, was, was;
    res, f := ChooseSfn(d, n, r, was);
    o := Item(n, r, f);
    if res != FR_OK {
      return;
    }
    res, a, mid, now := StoreItem(d, n, r, f, was);
  }
}
