/** From a formatted drive to names read back. */
module FatWhole {
  import opened FatBytes
  import opened FatTable
  import opened FatVolume
  import opened FatAlloc
  import opened DirTable
  import opened FatDir
  import opened FatPlan
  import opened FatBoot
  import opened FatFormat
  import opened FatMount
  import opened FatLfn
  import opened FatSfn
  import opened FatSlots
  import opened FatCatalog
  import opened FatNames
  import opened FatReaddir

  /** The root directory of a fresh volume holds nothing. */
  lemma FreshRoot(d: Dir)
    requires d.Valid() && FreshView(d.fs.g, d.fs.Image()) && d.table == RootTable(d.fs.g)
    ensures Ready(d, -1, Listing(d)) && IsCatalog(Listing(d), 0, [])
  {
    var list := Listing(d);
    Listed(d);
    ReadyIs(d, -1, list);
    forall k: nat | k < |list| ensures list[k][0] == 0 {
      SlotsAre(d.fs.g, d.fs.Image().rest, d.table, k);
      assert Mark(d.fs.g, d.fs.Image().rest, d.table, k) == 0;
    }
    EmptyCatalog(list);
  }

  /** Names stored in the root directory of a volume just formatted and mounted: reading it gives exactly those, each
      as often as it was stored. */
  method StoreFresh(vol: Volume, paths: seq<seq<Ascii>>, buf: seq<nat>, oem: nat -> Code, ghost disk: Disk,
      ghost sfd: bool, ghost o: Options, ghost p: Plan)
    returns (res: FResult, names: seq<seq<nat>>)
    requires MountedAs(disk, sfd, o, p, true, vol) && KeepsAscii(oem) && |buf| == MAX_LFN + 1
    modifies vol
    ensures res == FR_OK ==> multiset(names) == multiset(Segments(paths))
  {
    var d := new Dir(vol, 0, RootTable(vol.g));
    FreshRoot(d);
    res, names := StoreAll(d, paths, buf, oem, Listing(d), []);
    assert Names([]) == [];
  }
}
