/** Whole runs: what every sequence of create_chain and remove_chain calls keeps, disk errors and all. */
module FatRuns {
  import opened FatBytes
  import opened FatTable
  import opened FatVolume
  import opened FatChain
  import opened FatAlloc

  /** A put of `val` at `c` that a disk error stops leaves the table well-formed however far it gets. A caller can
      tell before the call: a FAT12 entry that lies across two sectors is the only one that can be left half-written.
      */
  ghost predicate PutSafe(g: Geometry, f: seq<nat>, c: nat, val: nat) {
    !IsCluster(f, c) || !Straddles(g, c) || WellFormed(f[c := HalfPut(c, f[c], val)])
  }

  /** That is exactly when every outcome of the failing put is well-formed. */
  lemma PutSafeIff(g: Geometry, f: seq<nat>, c: nat, val: nat)
    requires WellFormed(f)
    ensures PutSafe(g, f, c, val) <==> forall f' :: PutOutcome(g, f, c, val, FR_DISK_ERR, f') ==> WellFormed(f')
  {
    if !PutSafe(g, f, c, val) {
      assert PutOutcome(g, f, c, val, FR_DISK_ERR, f[c := HalfPut(c, f[c], val)]);
    }
  }

  /** create_chain behind `clst` with hint `last` survives a disk error. */
  ghost predicate CreateSafe(g: Geometry, f: seq<nat>, clst: nat, last: nat)
    requires |f| >= 3
  {
    Stretches(f, clst) ==> var n := Choice(f, clst, last); n != 0 ==> AppendSafe(g, f, clst, n)
  }

  ghost predicate AppendSafe(g: Geometry, f: seq<nat>, clst: nat, n: nat)
    requires IsCluster(f, n)
  {
    PutSafe(g, f, n, 0xFFFF_FFFF) && (clst != 0 ==> PutSafe(g, f[n := EndMarkOf(g.fatType)], clst, n))
  }

  lemma AppendSafeIff(g: Geometry, f: seq<nat>, clst: nat, n: nat)
    requires ValidGeometry(g) && |f| == g.nFatent && WellFormed(f) && Stretches(f, clst) && IsCluster(f, n) && f[n] == 0
    ensures AppendSafe(g, f, clst, n) <==> forall f' :: AppendStopped(g, f, clst, n, f') ==> WellFormed(f')
  {
    MaskedValues(g, 0);
    var e := EndMarkOf(g.fatType);
    AppendKeeps(f, clst, n, e);
    PutSafeIff(g, f, n, 0xFFFF_FFFF);
    PutSafeIff(g, f[n := e], clst, n);
    if !PutSafe(g, f, n, 0xFFFF_FFFF) {
      var f' :| PutOutcome(g, f, n, 0xFFFF_FFFF, FR_DISK_ERR, f') && !WellFormed(f');
      assert AppendStopped(g, f, clst, n, f');
    } else if clst != 0 && !PutSafe(g, f[n := e], clst, n) {
      var f' :| PutOutcome(g, f[n := e], clst, n, FR_DISK_ERR, f') && !WellFormed(f');
      assert AppendStopped(g, f, clst, n, f');
    }
  }

  lemma CreateKeeps(g: Geometry, f: seq<nat>, clst: nat, last: nat, r: nat, f': seq<nat>)
    requires ValidGeometry(g) && |f| == g.nFatent && WellFormed(f) && CreateExact(g, f, clst, last, r, f')
    requires r == DISK_ERROR ==> CreateSafe(g, f, clst, last)
    ensures |f'| == |f| && WellFormed(f')
  {
    MaskedValues(g, 0);
    if Stretches(f, clst) && f' != f {
      var n := Choice(f, clst, last);
      if r == n {
        AppendKeeps(f, clst, n, EndMarkOf(g.fatType));
      } else {
        AppendSafeIff(g, f, clst, n);
      }
    }
  }

  /** And whatever it comes back with, even on a disk error, no cluster in use but `clst` has changed its entry. */
  lemma CreateElsewhere(g: Geometry, f: seq<nat>, clst: nat, r: nat, f': seq<nat>, c: nat)
    requires CreateOutcome(g, f, clst, r, f') && IsCluster(f, c) && f[c] != 0 && c != clst
    ensures |f'| == |f| && f'[c] == f[c]
  {
    if f' != f && !(IsCluster(f, r) && f[r] == 0 && f' == Appended(f, clst, r, EndMarkOf(g.fatType))) {
      var n: nat :| AppendStopped(g, f, clst, n, f');
    }
  }

  /** Whatever create_chain comes back with, the table is well-formed: exactly when the condition holds. */
  lemma CreateIff(g: Geometry, f: seq<nat>, clst: nat, last: nat)
    requires ValidGeometry(g) && |f| == g.nFatent && WellFormed(f)
    ensures CreateSafe(g, f, clst, last) <==> forall r, f' :: CreateExact(g, f, clst, last, r, f') ==> WellFormed(f')
  {
    if CreateSafe(g, f, clst, last) {
      forall r, f' | CreateExact(g, f, clst, last, r, f') ensures WellFormed(f') {
        CreateKeeps(g, f, clst, last, r, f');
      }
    } else {
      var n := Choice(f, clst, last);
      AppendSafeIff(g, f, clst, n);
      var f' :| AppendStopped(g, f, clst, n, f') && !WellFormed(f');
      assert CreateExact(g, f, clst, last, DISK_ERROR, f');
    }
  }

  /** remove_chain from `clst` on survives a disk error at whichever entry it comes. */
  ghost predicate RemoveSafe(g: Geometry, f: seq<nat>, clst: nat, pclst: nat)
    requires WellFormed(f)
  {
    IsCluster(f, clst) ==>
      var f1, s := Cut(f, pclst, EndMarkOf(g.fatType)), Suffix(f, clst);
      && (pclst != 0 ==> PutSafe(g, f, pclst, 0xFFFF_FFFF))
      && forall k :: 0 <= k < |s| ==> FreeSafe(g, f1, s, k)
  }

  ghost predicate FreeSafe(g: Geometry, f: seq<nat>, s: seq<nat>, k: nat)
    requires k < |s|
  {
    PutSafe(g, FreeAll(f, s[..k]), s[k], 0)
  }

  lemma RemoveKeepsAll(g: Geometry, f: seq<nat>, clst: nat, pclst: nat, res: FResult, f': seq<nat>)
    requires ValidGeometry(g) && |f| == g.nFatent && WellFormed(f) && RemoveOutcome(g, f, clst, pclst, res, f')
    requires IsCluster(f, clst) ==> Removable(f, clst, pclst)
    requires res == FR_DISK_ERR ==> RemoveSafe(g, f, clst, pclst)
    ensures |f'| == |f| && WellFormed(f')
  {
    if IsCluster(f, clst) {
      MaskedValues(g, clst);
      var f1, s := Cut(f, pclst, EndMarkOf(g.fatType)), Suffix(f, clst);
      RemoveReady(f, clst, pclst, EndMarkOf(g.fatType));
      if res == FR_DISK_ERR && FreeStopped(g, f1, s, f') {
        var k :| 0 <= k < |s| && PutOutcome(g, FreeAll(f1, s[..k]), s[k], 0, FR_DISK_ERR, f');
        ReleasedTo(f1, s, k);
        assert FreeSafe(g, f1, s, k);
        PutSafeIff(g, FreeAll(f1, s[..k]), s[k], 0);
      } else if res == FR_DISK_ERR && f' != f1 {
        PutSafeIff(g, f, pclst, 0xFFFF_FFFF);
      }
    }
  }

  /** Whatever remove_chain comes back with, the table is well-formed: exactly when the condition holds. */
  lemma RemoveIff(g: Geometry, f: seq<nat>, clst: nat, pclst: nat)
    requires ValidGeometry(g) && |f| == g.nFatent && WellFormed(f) && (IsCluster(f, clst) ==> Removable(f, clst, pclst))
    ensures RemoveSafe(g, f, clst, pclst) <==>
              forall res, f' :: RemoveOutcome(g, f, clst, pclst, res, f') ==> WellFormed(f')
  {
    if RemoveSafe(g, f, clst, pclst) {
      forall res, f' | RemoveOutcome(g, f, clst, pclst, res, f') ensures WellFormed(f') {
        RemoveKeepsAll(g, f, clst, pclst, res, f');
      }
    } else {
      RemoveUnsafe(g, f, clst, pclst);
    }
  }

  lemma RemoveUnsafe(g: Geometry, f: seq<nat>, clst: nat, pclst: nat)
    requires ValidGeometry(g) && |f| == g.nFatent && WellFormed(f) && IsCluster(f, clst) && Removable(f, clst, pclst)
    requires !RemoveSafe(g, f, clst, pclst)
    ensures exists f' :: RemoveOutcome(g, f, clst, pclst, FR_DISK_ERR, f') && !WellFormed(f')
  {
    MaskedValues(g, clst);
    var f1, s := Cut(f, pclst, EndMarkOf(g.fatType)), Suffix(f, clst);
    if pclst != 0 && !PutSafe(g, f, pclst, 0xFFFF_FFFF) {
      PutSafeIff(g, f, pclst, 0xFFFF_FFFF);
      var f' :| PutOutcome(g, f, pclst, 0xFFFF_FFFF, FR_DISK_ERR, f') && !WellFormed(f');
      assert RemoveOutcome(g, f, clst, pclst, FR_DISK_ERR, f');
    } else {
      var k :| 0 <= k < |s| && !FreeSafe(g, f1, s, k);
      RemoveReady(f, clst, pclst, EndMarkOf(g.fatType));
      ReleasedTo(f1, s, k);
      PutSafeIff(g, FreeAll(f1, s[..k]), s[k], 0);
      var f' :| PutOutcome(g, FreeAll(f1, s[..k]), s[k], 0, FR_DISK_ERR, f') && !WellFormed(f');
      assert FreeStopped(g, f1, s, f');
      assert RemoveOutcome(g, f, clst, pclst, FR_DISK_ERR, f');
    }
  }

  // The cached count of free clusters.

  /** A put_fat that is to free this entry and stores only its first half leaves it free all the same. */
  predicate Vanishes(g: Geometry, f: seq<nat>, c: nat) {
    IsCluster(f, c) && Straddles(g, c) && HalfPut(c, f[c], 0) == 0
  }

  /** Freeing the first `k` clusters of a chain, and what the next entry is then. */
  lemma {:induction false} FreedCount(f: seq<nat>, s: seq<nat>, k: nat)
    requires WellFormed(f) && Releasable(f, s) && k <= |s|
    ensures FreeCount(FreeAll(f, s[..k])) == FreeCount(f) + k <= |f| - 2
    ensures k < |s| ==> Allocated(FreeAll(f, s[..k]), s[k]) && FreeAll(f, s[..k])[s[k]] == f[s[k]]
    decreases k
  {
    ReleasedTo(f, s, k);
    if k < |s| {
      FreeAllAt(f, s[..k], s[k]);
    }
    if k == 0 {
      assert s[..0] == [];
      CountExtremes(f, |f|);
    } else {
      FreedCount(f, s, k - 1);
      FreeAllSnoc(f, s, k - 1);
      FreeOne(FreeAll(f, s[..k - 1]), s[k - 1]);
    }
  }

  /** Stopped at number `k`, the entry is free just when it vanishes. */
  lemma StoppedCount(g: Geometry, f: seq<nat>, s: seq<nat>, k: nat, f': seq<nat>)
    requires WellFormed(f) && Releasable(f, s) && StoppedAt(g, f, s, k, f')
    ensures FreeCount(f') == FreeCount(f) + k || (Vanishes(g, f, s[k]) && FreeCount(f') == FreeCount(f) + k + 1)
  {
    var fk := FreeAll(f, s[..k]);
    FreedCount(f, s, k);
    if f' != fk {
      CountUpdate(fk, s[k], f'[s[k]], |fk|);
    }
  }

  /** No cluster of the chain vanishes. */
  ghost predicate CountSafe(g: Geometry, f: seq<nat>, clst: nat)
    requires WellFormed(f) && IsCluster(f, clst)
  {
    var s := Suffix(f, clst);
    forall k :: 0 <= k < |s| ==> !Vanishes(g, f, s[k])
  }

  lemma RemoveCounted(g: Geometry, f: seq<nat>, clst: nat, pclst: nat, count: nat, res: FResult, f': seq<nat>, k: nat)
    requires ValidGeometry(g) && |f| == g.nFatent && WellFormed(f) && Counted(g, f, count)
    requires IsCluster(f, clst) && Removable(f, clst, pclst) && CountSafe(g, f, clst)
    requires RemoveExact(g, f, clst, pclst, res, f', k)
    ensures Counted(g, f', Raised(g, count, k))
  {
    var f1, s := Cut(f, pclst, EndMarkOf(g.fatType)), Suffix(f, clst);
    MaskedValues(g, 0);
    RemoveReady(f, clst, pclst, EndMarkOf(g.fatType));
    if res == FR_DISK_ERR && k == 0 && pclst != 0 && PutOutcome(g, f, pclst, 0xFFFF_FFFF, res, f') {
      CountUpdate(f, pclst, f'[pclst], |f|);
    } else if s != [] {
      if res == FR_OK {
        FreedCount(f1, s, |s|);
        assert s[..|s|] == s;
      } else {
        StoppedCount(g, f1, s, k, f');
        assert s[k] in s;
        FreedCount(f1, s, k);
      }
    }
  }

  lemma RemoveMiscounted(g: Geometry, f: seq<nat>, clst: nat, pclst: nat, count: nat, k: nat)
    requires ValidGeometry(g) && |f| == g.nFatent && WellFormed(f) && count == FreeCount(f)
    requires IsCluster(f, clst) && Removable(f, clst, pclst)
    requires k < |Suffix(f, clst)| && Vanishes(g, f, Suffix(f, clst)[k])
    ensures exists f' :: RemoveExact(g, f, clst, pclst, FR_DISK_ERR, f', k) && !Counted(g, f', Raised(g, count, k))
  {
    var f1, s := Cut(f, pclst, EndMarkOf(g.fatType)), Suffix(f, clst);
    MaskedValues(g, 0);
    RemoveReady(f, clst, pclst, EndMarkOf(g.fatType));
    FreedCount(f1, s, k);
    var fk := FreeAll(f1, s[..k]);
    assert s[k] in s;
    var f' := fk[s[k] := 0];
    assert StoppedAt(g, f1, s, k, f');
    FreeOne(fk, s[k]);
    assert RemoveExact(g, f, clst, pclst, FR_DISK_ERR, f', k);
  }

  /** Whatever remove_chain comes back with, the cached count is unknown or exact afterwards: exactly if it is unknown,
      there is nothing to remove, or no cluster of the chain has an entry across two sectors that reads as free once
      its first half is. */
  lemma RemoveCountIff(g: Geometry, f: seq<nat>, clst: nat, pclst: nat, count: nat)
    requires ValidGeometry(g) && |f| == g.nFatent && WellFormed(f) && Counted(g, f, count)
    requires IsCluster(f, clst) ==> Removable(f, clst, pclst)
    ensures (forall res, f', k :: RemoveExact(g, f, clst, pclst, res, f', k) ==> Counted(g, f', Raised(g, count, k)))
            <==> count > g.nFatent - 2 || !IsCluster(f, clst) || CountSafe(g, f, clst)
  {
    if count <= g.nFatent - 2 && IsCluster(f, clst) && !CountSafe(g, f, clst) {
      var k :| 0 <= k < |Suffix(f, clst)| && Vanishes(g, f, Suffix(f, clst)[k]);
      RemoveMiscounted(g, f, clst, pclst, count, k);
    } else {
      forall res, f', k | RemoveExact(g, f, clst, pclst, res, f', k) ensures Counted(g, f', Raised(g, count, k)) {
        if count <= g.nFatent - 2 && IsCluster(f, clst) {
          RemoveCounted(g, f, clst, pclst, count, res, f', k);
        }
      }
    }
  }

  /** On every FAT12 volume with an entry across the first two sectors: clusters 341 and 5, removed from 341 on, whose
      entry holds the link to cluster 5. Its first half stored, it reads as free, and the count is one too low. */
  lemma CountTooLow(g: Geometry)
    requires ValidGeometry(g) && g.fatType == FAT12 && g.nFatent > 341
    ensures exists f, f' :: && |f| == g.nFatent && WellFormed(f) && IsHead(f, 341)
                            && RemoveExact(g, f, 341, 0, FR_DISK_ERR, f', 0) && Counted(g, f, FreeCount(f))
                            && !Counted(g, f', Raised(g, FreeCount(f), 0))
  {
    MaskedValues(g, 0);
    var f: seq<nat> := seq(g.nFatent, _ => 0)[341 := 5][5 := 0xFFF];
    assert IsChain(f, [341, 5]) && IsChain(f, [5]);
    WellFormedIff(f);
    ChainUnique(f, Suffix(f, 341), [341, 5]);
    IndexByte(511);
    IndexByte(512);
    CountExtremes(f, |f|);
    RemoveMiscounted(g, f, 341, 0, FreeCount(f), 0);
  }

  datatype Call = Create(clst: nat, last: nat, r: nat) | Remove(clst: nat, pclst: nat, res: FResult)

  /** A call took table `f` to `f'`. */
  ghost predicate Step(g: Geometry, f: seq<nat>, call: Call, f': seq<nat>) {
    WellFormed(f) ==>
      match call
      case Create(clst, last, r) => CreateExact(g, f, clst, last, r, f')
      case Remove(clst, pclst, res) =>
        (IsCluster(f, clst) ==> Removable(f, clst, pclst)) && RemoveOutcome(g, f, clst, pclst, res, f')
  }

  /** A call that meets a disk error was one that survives it. */
  ghost predicate Survives(g: Geometry, f: seq<nat>, call: Call)
    requires |f| >= 3
  {
    WellFormed(f) ==>
      match call
      case Create(clst, last, r) => r == DISK_ERROR ==> CreateSafe(g, f, clst, last)
      case Remove(clst, pclst, res) => res == FR_DISK_ERR ==> RemoveSafe(g, f, clst, pclst)
  }

  /** The tables met during a run: `ts[i]` becomes `ts[i + 1]` by `calls[i]`. */
  ghost predicate IsRun(g: Geometry, ts: seq<seq<nat>>, calls: seq<Call>) {
    && |ts| == |calls| + 1 && g.nFatent >= 3 && (forall i :: 0 <= i < |ts| ==> |ts[i]| == g.nFatent)
    && forall i :: 0 <= i < |calls| ==> Step(g, ts[i], calls[i], ts[i + 1]) && Survives(g, ts[i], calls[i])
  }

  /** From a well-formed table, every run meets only well-formed tables. */
  lemma {:induction false} RunKeeps(g: Geometry, ts: seq<seq<nat>>, calls: seq<Call>, i: nat)
    requires ValidGeometry(g) && IsRun(g, ts, calls) && WellFormed(ts[0]) && i < |ts|
    ensures WellFormed(ts[i])
  {
    if i > 0 {
      RunKeeps(g, ts, calls, i - 1);
      assert Step(g, ts[i - 1], calls[i - 1], ts[i]) && Survives(g, ts[i - 1], calls[i - 1]);
      match calls[i - 1]
      case Create(clst, last, r) => CreateKeeps(g, ts[i - 1], clst, last, r, ts[i]);
      case Remove(clst, pclst, res) => RemoveKeepsAll(g, ts[i - 1], clst, pclst, res, ts[i]);
    }
  }

  /** No entry below 341 lies across two sectors; entry 341 does. */
  lemma FirstStraddle(g: Geometry, c: nat)
    ensures Straddles(g, c) ==> g.fatType == FAT12 && c >= 341
    ensures g.fatType == FAT12 ==> Straddles(g, 341)
  {
    IndexByte(511);
    IndexByte(512);
    if Straddles(g, c) {
      LateStraddle(g, c);
    }
  }

  /** A disk error stopped create_chain and left a broken table. */
  ghost predicate Breaks(g: Geometry, f: seq<nat>, clst: nat, last: nat, f': seq<nat>) {
    && |f| == g.nFatent && WellFormed(f) && CreateExact(g, f, clst, last, DISK_ERROR, f') && !WellFormed(f')
  }

  /** The volumes on which a disk error during create_chain can leave a broken table are the FAT12 ones with an entry
      341. */
  lemma TornIff(g: Geometry)
    requires ValidGeometry(g)
    ensures (exists f, clst, last, f' :: Breaks(g, f, clst, last, f')) <==> g.fatType == FAT12 && g.nFatent > 341
  {
    if g.fatType == FAT12 && g.nFatent > 341 {
      var f, f' := TornEntry(g);
    } else {
      forall f, clst, last, f' | |f| == g.nFatent && WellFormed(f) && CreateExact(g, f, clst, last, DISK_ERROR, f')
        ensures WellFormed(f')
      {
        forall c: nat | IsCluster(f, c) ensures !Straddles(g, c) {
          FirstStraddle(g, c);
        }
        CreateKeeps(g, f, clst, last, DISK_ERROR, f');
      }
    }
  }

  /** On an empty volume whose hint is 340: the search begins at 341, and the end mark half-written is a link to the
      free cluster 15. */
  lemma TornEntry(g: Geometry) returns (f: seq<nat>, f': seq<nat>)
    requires ValidGeometry(g) && g.fatType == FAT12 && g.nFatent > 341
    ensures Breaks(g, f, 0, 340, f') && forall c :: 0 <= c < |f| ==> f[c] == 0
  {
    f := seq(g.nFatent, _ => 0);
    f' := f[341 := 15];
    WellFormedIff(f);
    FirstStraddle(g, 341);
    assert HalfPut(341, 0, 0xFFFF_FFFF) == 15;
    assert Choice(f, 0, 340) == 341;
    assert PutOutcome(g, f, 341, 0xFFFF_FFFF, FR_DISK_ERR, f');
    assert AppendStopped(g, f, 0, 341, f');
    if WellFormed(f') {
      LinkTarget(f', 341);
      assert false;
    }
    assert CreateExact(g, f, 0, 340, DISK_ERROR, f');
  }
}
