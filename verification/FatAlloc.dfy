/** Allocating and releasing clusters on a mounted volume. */
module FatAlloc {
  import opened FatBytes
  import opened FatTable
  import opened FatVolume
  import opened FatChain

  /** The end mark as it is stored in a table of type `t`. */
  function EndMarkOf(t: FatType): nat {
    Mask(t, 0xFFFF_FFFF)
  }

  /** The cached free-cluster count is unknown or exact. */
  ghost predicate CountOk(fs: Volume)
    requires fs.Valid()
    reads fs
  {
    Counted(fs.g, fs.Fat(), fs.freeClst)
  }

  /** The cached count is unknown, or as it was for table `f`: one too high if a cluster has been taken since. */
  ghost predicate CountBehind(fs: Volume, f: seq<nat>)
    requires fs.Valid()
    reads fs
  {
    fs.freeClst > fs.g.nFatent - 2 || fs.freeClst == FreeCount(fs.Fat()) + if fs.Fat() == f then 0 else 1
  }

  /** Masking changes no cluster number, and an end mark is above every cluster number. */
  lemma MaskedValues(g: Geometry, c: nat)
    requires ValidGeometry(g) && c < g.nFatent
    ensures Mask(g.fatType, c) == c && EndMarkOf(g.fatType) >= g.nFatent
    ensures Mask(g.fatType, 0) == 0
  {
  }

  /** `f` with the free cluster `n` taken, and linked behind `clst` unless that is 0. */
  function Appended(f: seq<nat>, clst: nat, n: nat, e: nat): (r: seq<nat>)
    requires IsCluster(f, n) && (clst == 0 || IsCluster(f, clst))
    ensures |r| == |f|
  {
    if clst == 0 then f[n := e] else f[n := e][clst := n]
  }

  lemma AppendKeeps(f: seq<nat>, clst: nat, n: nat, e: nat)
    requires WellFormed(f) && IsCluster(f, n) && f[n] == 0 && e >= |f|
    requires clst == 0 || (IsCluster(f, clst) && f[clst] >= |f|)
    ensures WellFormed(f[n := e]) && WellFormed(Appended(f, clst, n, e))
    ensures FreeCount(Appended(f, clst, n, e)) == FreeCount(f) - 1
  {
    EndMark(f, n, e);
    CountUpdate(f, n, e, |f|);
    if clst != 0 {
      var f1 := f[n := e];
      FreeIsHead(f, n);
      assert IsHead(f1, n);
      LinkEnd(f1, clst, n);
      CountUpdate(f1, clst, n, |f|);
    }
  }

  /** Exactly one formerly free cluster is appended to the chain that ended at `clst`; every other chain is as it was.
      */
  lemma AppendChains(f: seq<nat>, clst: nat, n: nat, e: nat, s: seq<nat>)
    requires IsCluster(f, n) && f[n] == 0 && e >= |f|
    requires clst == 0 || (IsCluster(f, clst) && f[clst] >= |f|)
    requires IsChain(f, s)
    ensures var f' := Appended(f, clst, n, e);
            IsChain(f', if s[|s| - 1] == clst then s + [n] else s)
    ensures clst == 0 ==> IsChain(Appended(f, clst, n, e), [n])
  {
    var f', last := Appended(f, clst, n, e), |s| - 1;
    forall i | 0 <= i < |s| ensures s[i] != n && (i < last ==> s[i] != clst) {
      if i < last {
        assert f[s[i]] == s[i + 1] && IsCluster(f, s[i + 1]);
      }
    }
    var s' := if s[last] == clst then s + [n] else s;
    forall i | 0 <= i < |s'| - 1 ensures f'[s'[i]] == s'[i + 1] {
      if i < last {
        assert f[s[i]] == s[i + 1];
      }
    }
  }

  /** The cached count is unknown or exact for table `f`. */
  predicate Counted(g: Geometry, f: seq<nat>, count: nat) {
    count > g.nFatent - 2 || count == FreeCount(f)
  }

  /** What is left of the table when a disk error stops the appending. */
  ghost predicate AppendStopped(g: Geometry, f: seq<nat>, clst: nat, n: nat, f': seq<nat>)
  {
    && IsCluster(f, n) && f[n] == 0
    && (PutOutcome(g, f, n, 0xFFFF_FFFF, FR_DISK_ERR, f')
        || (clst != 0 && PutOutcome(g, f[n := EndMarkOf(g.fatType)], clst, n, FR_DISK_ERR, f')))
  }

  /** A half-written FAT12 entry is not free: neither the first half of an end mark, nor an end mark half overwritten.
      */
  lemma HalfMark(g: Geometry, c: nat, n: nat, m: nat)
    requires Straddles(g, n) && (Straddles(g, c) ==> m > c)
    ensures HalfPut(n, 0, 0xFFFF_FFFF) != 0 && (Straddles(g, c) ==> HalfPut(c, m, n) != 0)
  {
    if Straddles(g, c) {
      LateStraddle(g, c);
    }
  }

  /** No entry below 341 lies across two sectors. */
  lemma LateStraddle(g: Geometry, c: nat)
    requires Straddles(g, c)
    ensures c >= 341
  {
  }

  /** A stopped appending that has changed the table at all has taken one free cluster. */
  lemma AppendStoppedCount(g: Geometry, f: seq<nat>, clst: nat, n: nat, f': seq<nat>)
    requires ValidGeometry(g) && |f| == g.nFatent && AppendStopped(g, f, clst, n, f')
    requires clst == 0 || (IsCluster(f, clst) && f[clst] >= |f|)
    ensures FreeCount(f') == FreeCount(f) - if f' == f then 0 else 1
  {
    MaskedValues(g, 0);
    var e := EndMarkOf(g.fatType);
    CountUpdate(f, n, e, |f|);
    if f' == f[n := HalfPut(n, f[n], 0xFFFF_FFFF)] && Straddles(g, n) {
      HalfMark(g, n, n, n + 1);
      CountUpdate(f, n, f'[n], |f|);
    } else if f' != f && f' != f[n := e] {
      LateStraddle(g, clst);
      CountUpdate(f[n := e], clst, f'[clst], |f|);
    }
  }

  /** The results of create_chain and what each does to the table. */
  ghost predicate CreateOutcome(g: Geometry, f: seq<nat>, clst: nat, r: nat, f': seq<nat>)
  {
    if clst != 0 && (!IsCluster(f, clst) || f[clst] < 2) then
      f' == f && (r == 1 || (r == DISK_ERROR && IsCluster(f, clst)))
    else if clst != 0 && f[clst] < |f| then
      f' == f && (r == f[clst] || r == DISK_ERROR)
    else
      || (r == 0 && f' == f && FreeCount(f) == 0)
      || (IsCluster(f, r) && f[r] == 0 && f' == Appended(f, clst, r, EndMarkOf(g.fatType)))
      || (r == DISK_ERROR && f' == f)
      || (r == DISK_ERROR && exists n :: AppendStopped(g, f, clst, n, f'))
  }

  /** create_chain has something to append. */
  predicate Stretches(f: seq<nat>, clst: nat) {
    clst == 0 || (IsCluster(f, clst) && f[clst] >= |f|)
  }

  /** The first free cluster from `a` up to `b`, or `b`. */
  function FirstFree(f: seq<nat>, a: nat, b: nat): (c: nat)
    requires a <= b <= |f|
    ensures a <= c <= b && (c < b ==> f[c] == 0)
    decreases b - a
  {
    if a == b || f[a] == 0 then a else FirstFree(f, a + 1, b)
  }

  lemma {:induction false} FirstFreeIs(f: seq<nat>, a: nat, b: nat, c: nat)
    requires a <= c <= b <= |f| && NoneFree(f, a, c) && (c < b ==> f[c] == 0)
    ensures FirstFree(f, a, b) == c
    decreases c - a
  {
    if a < c {
      NoneFreeAt(f, a, c, a);
      NoneFreeTail(f, a, c);
      FirstFreeIs(f, a + 1, b, c);
    }
  }

  lemma {:induction false} NoneFreeTail(f: seq<nat>, a: nat, b: nat)
    requires a < b <= |f| && NoneFree(f, a, b)
    ensures NoneFree(f, a + 1, b)
    decreases b
  {
    if a + 1 < b {
      NoneFreeTail(f, a, b - 1);
    }
  }

  /** The free cluster that is met first behind `scl`, going round at the end of the table up to `scl` itself; 0 if
      there is none. */
  function Onward(f: seq<nat>, scl: nat): nat
    requires 1 <= scl < |f|
  {
    var c := FirstFree(f, scl + 1, |f|);
    if c < |f| then c
    else if scl < 2 then 0
    else
      var d := FirstFree(f, 2, scl + 1);
      if d <= scl then d else 0
  }

  /** The cluster that create_chain takes: the one next to `clst` if that is free, else the first free one behind the
      hint, or behind `clst` without a hint; 0 if none is free. */
  function Choice(f: seq<nat>, clst: nat, last: nat): (n: nat)
    requires |f| >= 3 && (clst == 0 || IsCluster(f, clst))
    ensures n != 0 ==> IsCluster(f, n) && f[n] == 0
  {
    if clst == 0 then Onward(f, if 1 <= last < |f| then last else 1)
    else if f[After(clst, |f|)] == 0 then After(clst, |f|)
    else Onward(f, if 2 <= last < |f| then last else clst)
  }

  /** None is taken exactly if none is free. */
  lemma ChoiceZero(f: seq<nat>, clst: nat, last: nat)
    requires |f| >= 3 && (clst == 0 || IsCluster(f, clst))
    ensures Choice(f, clst, last) == 0 <==> FreeCount(f) == 0
  {
    CountExtremes(f, |f|);
    if Choice(f, clst, last) == 0 {
      var scl := if clst == 0 then (if 1 <= last < |f| then last else 1) else if 2 <= last < |f| then last else clst;
      forall c | 2 <= c < |f| ensures f[c] != 0 {
        if c > scl {
          FirstFreeLeast(f, scl + 1, |f|, c);
        } else {
          FirstFreeLeast(f, 2, scl + 1, c);
        }
      }
    }
  }

  lemma {:induction false} FirstFreeLeast(f: seq<nat>, a: nat, b: nat, c: nat)
    requires a <= c < b <= |f|
    ensures f[c] == 0 ==> FirstFree(f, a, b) <= c
    decreases b - a
  {
    if a < c && f[a] != 0 {
      FirstFreeLeast(f, a + 1, b, c);
    }
  }

  /** The same, with the cluster that the hint `last` leads to. */
  ghost predicate CreateExact(g: Geometry, f: seq<nat>, clst: nat, last: nat, r: nat, f': seq<nat>) {
    && CreateOutcome(g, f, clst, r, f')
    && (Stretches(f, clst) && |f| >= 3 ==>
          var n := Choice(f, clst, last);
          || (r == DISK_ERROR && f' == f)
          || (r == 0 && n == 0 && f' == f)
          || (n != 0 && r == n && f' == Appended(f, clst, n, EndMarkOf(g.fatType)))
          || (n != 0 && r == DISK_ERROR && AppendStopped(g, f, clst, n, f')))
  }

  /** No cluster from `a` up to `b` is free. */
  ghost predicate NoneFree(f: seq<nat>, a: nat, b: nat)
    requires b <= |f|
    decreases b
  {
    b <= a || (NoneFree(f, a, b - 1) && f[b - 1] != 0)
  }

  lemma {:induction false} NoneFreeAt(f: seq<nat>, a: nat, b: nat, c: nat)
    requires b <= |f| && NoneFree(f, a, b) && a <= c < b
    ensures f[c] != 0
    decreases b
  {
    if c < b - 1 {
      NoneFreeAt(f, a, b - 1, c);
    }
  }

  /** Both parts of a full circle searched: nothing is free. */
  lemma NoneFreeAtAll(f: seq<nat>, scl: nat)
    requires |f| >= 2 && 1 <= scl < |f| && NoneFree(f, scl + 1, |f|) && (scl >= 2 ==> NoneFree(f, 2, scl + 1))
    ensures FreeCount(f) == 0
  {
    forall c | 2 <= c < |f| ensures f[c] != 0 {
      if c <= scl {
        NoneFreeAt(f, 2, scl + 1, c);
      } else {
        NoneFreeAt(f, scl + 1, |f|, c);
      }
    }
    CountExtremes(f, |f|);
  }

  /** What a search for a free cluster may come back with. */
  ghost predicate Found(f: seq<nat>, ncl: nat) {
    || (ncl == 0 && FreeCount(f) == 0)
    || (ncl == 1 && exists c: nat :: IsCluster(f, c) && f[c] == 1)
    || ncl == DISK_ERROR
    || (IsCluster(f, ncl) && f[ncl] == 0)
  }

  /** The search has come to `ncl` without success, past the end of the table or not yet. */
  ghost predicate Searching(f: seq<nat>, scl: nat, ncl: nat, wrapped: bool) {
    if wrapped then 2 <= ncl < scl < |f| && NoneFree(f, scl + 1, |f|) && NoneFree(f, 2, ncl + 1)
    else 1 <= scl <= ncl < |f| && NoneFree(f, scl + 1, ncl + 1)
  }

  /** The cluster the search looks at behind `ncl`. */
  function After(ncl: nat, n: nat): nat {
    if ncl + 1 >= n then 2 else ncl + 1
  }

  /** Looking at one more cluster in use carries the search on, or ends it with nothing free. */
  lemma SearchOn(f: seq<nat>, scl: nat, ncl: nat, wrapped: bool)
    requires Searching(f, scl, ncl, wrapped) && |f| >= 3
    ensures var c, w := After(ncl, |f|), wrapped || ncl + 1 >= |f|;
            && (ncl + 1 >= |f| && 2 > scl ==> FreeCount(f) == 0)
            && (!(ncl + 1 >= |f| && 2 > scl) && f[c] != 0 ==>
                  if c == scl then FreeCount(f) == 0
                  else Searching(f, scl, c, w) && (w == wrapped ==> c > ncl))
  {
    var c := After(ncl, |f|);
    if ncl + 1 >= |f| {
      if 2 > scl || (c == scl && f[c] != 0) {
        NoneFreeAtAll(f, scl);
      }
    } else if c == scl && f[c] != 0 {
      NoneFreeAtAll(f, scl);
    }
  }

  /** Searches for a free cluster from behind `scl` round to `scl` itself. */
  method FindFree(fs: Volume, scl: nat) returns (ncl: nat)
    requires fs.Valid() && 1 <= scl < fs.g.nFatent
    modifies fs`disk, fs`wflag, fs`mirrorLost, fs`win, fs`winsect
    ensures fs.Peeked() && Found(fs.Fat(), ncl) && (ncl == 1 || ncl == DISK_ERROR || ncl == Onward(fs.Fat(), scl))
  {
    ghost var f, wrapped := fs.Fat(), false;
    ncl := scl;
    while true
      invariant fs.Peeked() && f == fs.Fat() && Searching(f, scl, ncl, wrapped)
      decreases !wrapped, fs.g.nFatent - ncl
    {
      SearchOn(f, scl, ncl, wrapped);
      ncl := ncl + 1;
      if ncl >= fs.g.nFatent {
        ncl := 2;
        wrapped := true;
        if ncl > scl {
          OnwardNone(f, scl);
          return 0;
        }
      }
      var cs := fs.GetFat(ncl);
      if cs == 0 { break; }
      if cs == 1 || cs == DISK_ERROR { return cs; }
      if ncl == scl {
        OnwardNone(f, scl);
        return 0;
      }
    }
    OnwardFound(f, scl, ncl, wrapped);
  }

  lemma OnwardNone(f: seq<nat>, scl: nat)
    requires 1 <= scl < |f| && FreeCount(f) == 0
    ensures Onward(f, scl) == 0
  {
    CountExtremes(f, |f|);
  }

  /** The search ends at the cluster behind `scl`. */
  lemma OnwardFound(f: seq<nat>, scl: nat, ncl: nat, wrapped: bool)
    requires 1 <= scl < |f| && IsCluster(f, ncl) && f[ncl] == 0
    requires if wrapped then ncl <= scl && NoneFree(f, scl + 1, |f|) && NoneFree(f, 2, ncl)
             else scl < ncl && NoneFree(f, scl + 1, ncl)
    ensures Onward(f, scl) == ncl
  {
    if wrapped {
      FirstFreeIs(f, scl + 1, |f|, |f|);
      FirstFreeIs(f, 2, scl + 1, ncl);
    } else {
      FirstFreeIs(f, scl + 1, |f|, ncl);
    }
  }

  /** A well-formed table has no entry 1, the value get_fat keeps for "internal error". */
  lemma NoOnes(f: seq<nat>, c: nat)
    requires WellFormed(f) && IsCluster(f, c)
    ensures f[c] != 1
  {
    if f[c] != 0 {
      LinkTarget(f, c);
    }
  }

  /** Chooses the cluster to append: the one next to `clst` when that is free, else by search from the hint. */
  method PickCluster(fs: Volume, clst: nat, start: nat) returns (ncl: nat)
    requires fs.Valid() && WellFormed(fs.Fat())
    requires start == if clst == 0 then (if 1 <= fs.lastClst < fs.g.nFatent then fs.lastClst else 1) else clst
    requires clst == 0 || IsCluster(fs.Fat(), clst)
    modifies fs`disk, fs`wflag, fs`mirrorLost, fs`win, fs`winsect
    ensures fs.Peeked() && Found(fs.Fat(), ncl) && ncl != 1
    ensures ncl == DISK_ERROR || ncl == Choice(fs.Fat(), clst, fs.lastClst)
  {
    var scl := start;
    ncl := 0;
    if scl == clst {
      ncl := scl + 1;
      if ncl >= fs.g.nFatent { ncl := 2; }
      var cs := fs.GetFat(ncl);
      if cs == 1 || cs == DISK_ERROR {
        NoOnes(fs.Fat(), ncl);
        return cs;
      }
      if cs != 0 {
        cs := fs.lastClst;
        if cs >= 2 && cs < fs.g.nFatent { scl := cs; }
        ncl := 0;
      }
    }
    if ncl == 0 {
      ncl := FindFree(fs, scl);
      if ncl == 1 {
        ghost var c: nat :| IsCluster(fs.Fat(), c) && fs.Fat()[c] == 1;
        NoOnes(fs.Fat(), c);
      }
    }
  }

  /** Marks the new cluster as the end of a chain, then links it in. */
  method LinkNew(fs: Volume, clst: nat, ncl: nat) returns (res: FResult)
    requires fs.Valid() && IsCluster(fs.Fat(), ncl) && fs.Fat()[ncl] == 0 && (clst == 0 || IsCluster(fs.Fat(), clst))
    modifies fs`disk, fs`wflag, fs`mirrorLost, fs`win, fs`winsect
    ensures fs.Valid() && fs.FatOnly()
    ensures res == FR_OK ==> fs.Fat() == Appended(old(fs.Fat()), clst, ncl, EndMarkOf(fs.g.fatType))
    ensures res != FR_OK ==> res == FR_DISK_ERR && AppendStopped(fs.g, old(fs.Fat()), clst, ncl, fs.Fat())
  {
    MaskedValues(fs.g, ncl);
    res := fs.PutFat(ncl, 0xFFFF_FFFF);
    if res == FR_OK && clst != 0 {
      res := fs.PutFat(clst, ncl);
    }
  }

  /** LinkNew, and what it means for the free clusters. */
  method LinkCounted(fs: Volume, clst: nat, ncl: nat) returns (res: FResult)
    requires fs.Valid() && WellFormed(fs.Fat()) && IsCluster(fs.Fat(), ncl) && fs.Fat()[ncl] == 0
    requires clst == 0 || (IsCluster(fs.Fat(), clst) && fs.Fat()[clst] >= fs.g.nFatent)
    modifies fs`disk, fs`wflag, fs`mirrorLost, fs`win, fs`winsect
    ensures fs.Valid() && fs.FatOnly()
    ensures res == FR_OK ==>
              fs.Fat() == Appended(old(fs.Fat()), clst, ncl, EndMarkOf(fs.g.fatType)) && WellFormed(fs.Fat())
    ensures res != FR_OK ==> res == FR_DISK_ERR && AppendStopped(fs.g, old(fs.Fat()), clst, ncl, fs.Fat())
    ensures FreeCount(fs.Fat()) == FreeCount(old(fs.Fat())) - if res != FR_OK && fs.Fat() == old(fs.Fat()) then 0 else 1
  {
    ghost var f := fs.Fat();
    MaskedValues(fs.g, ncl);
    AppendKeeps(f, clst, ncl, EndMarkOf(fs.g.fatType));
    res := LinkNew(fs, clst, ncl);
    if res != FR_OK {
      AppendStoppedCount(fs.g, f, clst, ncl, fs.Fat());
    }
  }

  /** Appends the free cluster `ncl` and keeps the hint and the count up to date. */
  method TakeCluster(fs: Volume, clst: nat, ncl: nat) returns (res: FResult)
    requires fs.Valid() && WellFormed(fs.Fat()) && CountOk(fs)
    requires clst == 0 || (IsCluster(fs.Fat(), clst) && fs.Fat()[clst] >= fs.g.nFatent)
    requires IsCluster(fs.Fat(), ncl) && fs.Fat()[ncl] == 0
    modifies fs
    ensures fs.Valid() && fs.FatOnly()
    ensures res == FR_OK ==> fs.Fat() == Appended(old(fs.Fat()), clst, ncl, EndMarkOf(fs.g.fatType))
    ensures res == FR_OK ==> WellFormed(fs.Fat()) && CountOk(fs) && fs.lastClst == ncl && fs.fsiDirty
    ensures res == FR_OK ==> fs.freeClst == NewCount(fs.g, old(fs.Fat()), old(fs.freeClst), ncl)
    ensures res != FR_OK ==> res == FR_DISK_ERR && AppendStopped(fs.g, old(fs.Fat()), clst, ncl, fs.Fat())
    ensures res != FR_OK ==>
              fs.lastClst == old(fs.lastClst) && fs.freeClst == old(fs.freeClst) && fs.fsiDirty == old(fs.fsiDirty)
    ensures res != FR_OK ==> CountBehind(fs, old(fs.Fat()))
  {
    res := LinkCounted(fs, clst, ncl);
    if res == FR_OK {
      fs.lastClst := ncl;
      if fs.freeClst <= fs.g.nFatent - 2 { fs.freeClst := fs.freeClst - 1; }
      fs.fsiDirty := true;
    }
  }

  /** Appends a free cluster behind `clst`, the end of a chain, or as a new chain when `clst` is 0. */
  method AppendCluster(fs: Volume, clst: nat, scl: nat) returns (r: nat)
    requires fs.Valid() && WellFormed(fs.Fat()) && CountOk(fs) && Stretches(fs.Fat(), clst)
    requires scl == if clst == 0 then (if 1 <= fs.lastClst < fs.g.nFatent then fs.lastClst else 1) else clst
    modifies fs
    ensures fs.Valid() && fs.FatOnly() && CreateExact(fs.g, old(fs.Fat()), clst, old(fs.lastClst), r, fs.Fat())
    ensures fs.freeClst == NewCount(fs.g, old(fs.Fat()), old(fs.freeClst), r)
    ensures if r == DISK_ERROR then CountBehind(fs, old(fs.Fat())) else WellFormed(fs.Fat()) && CountOk(fs)
    ensures Hints(fs, r)
  {
    ChoiceZero(fs.Fat(), clst, fs.lastClst);
    if fs.freeClst == 0 { return 0; }
    r := PickCluster(fs, clst, scl);
    if r != 0 && r != DISK_ERROR {
      var res := TakeCluster(fs, clst, r);
      if res != FR_OK { r := DISK_ERROR; }
    }
  }

  /** The cached count after create_chain has come back with `r`. */
  function NewCount(g: Geometry, f: seq<nat>, count: nat, r: nat): nat {
    if IsCluster(f, r) && f[r] == 0 && 0 < count <= g.nFatent - 2 then count - 1 else count
  }

  /** Whatever create_chain comes back with, the cached count is unknown or exact afterwards: exactly if it is
      unknown, there is nothing to append, no cluster is free, or a new chain is begun with a cluster whose entry lies
      in one sector. */
  lemma CountIff(g: Geometry, f: seq<nat>, clst: nat, last: nat, count: nat)
    requires ValidGeometry(g) && |f| == g.nFatent && WellFormed(f) && Counted(g, f, count)
    ensures (forall r, f' :: CreateExact(g, f, clst, last, r, f') ==> Counted(g, f', NewCount(g, f, count, r)))
            <==> || count > g.nFatent - 2 || !Stretches(f, clst) || Choice(f, clst, last) == 0
                 || (clst == 0 && !Straddles(g, Choice(f, clst, last)))
  {
    MaskedValues(g, 0);
    if count <= g.nFatent - 2 && Stretches(f, clst) && Choice(f, clst, last) != 0 {
      var n := Choice(f, clst, last);
      if clst == 0 && !Straddles(g, n) {
        forall r, f' | CreateExact(g, f, clst, last, r, f') ensures Counted(g, f', NewCount(g, f, count, r)) {
          AppendKeeps(f, clst, n, EndMarkOf(g.fatType));
        }
      } else {
        var f' := if clst == 0 then f[n := HalfPut(n, f[n], 0xFFFF_FFFF)] else f[n := EndMarkOf(g.fatType)];
        CountStopped(g, f, clst, n, f');
        assert CreateExact(g, f, clst, last, DISK_ERROR, f');
      }
    } else {
      forall r, f' | CreateExact(g, f, clst, last, r, f') ensures Counted(g, f', NewCount(g, f, count, r)) {
        if !Stretches(f, clst) && IsCluster(f, clst) && f[clst] != 0 {
          LinkTarget(f, clst);
        }
      }
    }
  }

  /** The disk error that leaves the count one too high. */
  lemma CountStopped(g: Geometry, f: seq<nat>, clst: nat, n: nat, f': seq<nat>)
    requires ValidGeometry(g) && |f| == g.nFatent && Stretches(f, clst) && IsCluster(f, n) && f[n] == 0
    requires if clst == 0 then Straddles(g, n) && f' == f[n := HalfPut(n, f[n], 0xFFFF_FFFF)]
             else f' == f[n := EndMarkOf(g.fatType)]
    ensures AppendStopped(g, f, clst, n, f') && FreeCount(f') == FreeCount(f) - 1
  {
    MaskedValues(g, 0);
    AppendStoppedCount(g, f, clst, n, f');
    if clst == 0 {
      HalfMark(g, n, n, n + 1);
    }
    assert f'[n] != f[n];
  }

  /** On every volume of two clusters or more: a chain of one cluster stretched, and its link not written. */
  lemma CountTooHigh(g: Geometry, last: nat)
    requires ValidGeometry(g) && g.nFatent >= 4
    ensures exists f, f' :: && |f| == g.nFatent && WellFormed(f) && CreateExact(g, f, 2, last, DISK_ERROR, f')
                            && Counted(g, f, FreeCount(f)) && !Counted(g, f', NewCount(g, f, FreeCount(f), DISK_ERROR))
  {
    MaskedValues(g, 0);
    var zero: seq<nat> := seq(g.nFatent, _ => 0);
    WellFormedIff(zero);
    AppendKeeps(zero, 0, 2, EndMarkOf(g.fatType));
    var f := Appended(zero, 0, 2, EndMarkOf(g.fatType));
    assert Choice(f, 2, last) == 3;
    CountIff(g, f, 2, last, FreeCount(f));
    var f' := f[3 := EndMarkOf(g.fatType)];
    CountStopped(g, f, 2, 3, f');
    assert CreateExact(g, f, 2, last, DISK_ERROR, f');
  }

  /** The allocation hint and the count move exactly when a cluster has been taken. */
  twostate predicate Hints(fs: Volume, r: nat)
    requires old(fs.Valid())
    reads fs
  {
    if IsCluster(old(fs.Fat()), r) && old(fs.Fat())[r] == 0 then fs.lastClst == r && fs.fsiDirty
    else fs.lastClst == old(fs.lastClst) && fs.freeClst == old(fs.freeClst) && fs.fsiDirty == old(fs.fsiDirty)
  }

  /** Stretches the chain that ends at `clst`, or starts a new one when `clst` is 0. */
  method CreateChain(fs: Volume, clst: nat) returns (r: nat)
    requires fs.Valid() && WellFormed(fs.Fat()) && CountOk(fs)
    modifies fs
    ensures fs.Valid() && fs.FatOnly() && CreateExact(fs.g, old(fs.Fat()), clst, old(fs.lastClst), r, fs.Fat())
    ensures fs.freeClst == NewCount(fs.g, old(fs.Fat()), old(fs.freeClst), r)
    ensures if r == DISK_ERROR then CountBehind(fs, old(fs.Fat())) else WellFormed(fs.Fat()) && CountOk(fs)
    ensures Hints(fs, r)
  {
    var scl;
    if clst == 0 {
      scl := fs.lastClst;
      if scl == 0 || scl >= fs.g.nFatent { scl := 1; }
    } else {
      var cs := fs.GetFat(clst);
      if cs < 2 { return 1; }
      if cs == DISK_ERROR { return cs; }
      LinkTarget(fs.Fat(), clst);
      if cs < fs.g.nFatent { return cs; }
      scl := clst;
    }
    r := AppendCluster(fs, clst, scl);
  }

  /** The cached count after `n` clusters have been freed: a count that is unknown stays so. */
  function Raised(g: Geometry, count: nat, n: nat): nat {
    if count + n <= g.nFatent - 2 then count + n else if count <= g.nFatent - 2 then g.nFatent - 2 else count
  }

  /** Frees one cluster and counts it. */
  method FreeCluster(fs: Volume, clst: nat) returns (res: FResult)
    requires fs.Valid() && CountOk(fs) && Allocated(fs.Fat(), clst)
    modifies fs
    ensures fs.Valid() && fs.FatOnly() && fs.lastClst == old(fs.lastClst)
    ensures PutOutcome(fs.g, old(fs.Fat()), clst, 0, res, fs.Fat())
    ensures res == FR_OK ==> fs.Fat() == old(fs.Fat())[clst := 0] && CountOk(fs)
    ensures fs.freeClst == Raised(fs.g, old(fs.freeClst), if res == FR_OK then 1 else 0)
  {
    FreeOne(fs.Fat(), clst);
    MaskedValues(fs.g, clst);
    res := fs.PutFat(clst, 0);
    if res == FR_OK && fs.freeClst < fs.g.nFatent - 2 {
      fs.freeClst := fs.freeClst + 1;
      fs.fsiDirty := true;
    }
  }

  /** What is left when a disk error stops the freeing of `s`: a first part freed, the next entry as put_fat left it. */
  ghost predicate FreeStopped(g: Geometry, f: seq<nat>, s: seq<nat>, f': seq<nat>) {
    exists k :: 0 <= k < |s| && PutOutcome(g, FreeAll(f, s[..k]), s[k], 0, FR_DISK_ERR, f')
  }

  /** The same, where `k` of them have been freed. */
  ghost predicate StoppedAt(g: Geometry, f: seq<nat>, s: seq<nat>, k: nat, f': seq<nat>) {
    if s == [] then k == 0 && f' == f
    else k < |s| && PutOutcome(g, FreeAll(f, s[..k]), s[k], 0, FR_DISK_ERR, f')
  }

  /** One round of the loop in remove_chain; `done` when the cluster was free already. */
  method FreeStep(fs: Volume, clst: nat) returns (res: FResult, nxt: nat, done: bool)
    requires fs.Valid() && CountOk(fs) && IsCluster(fs.Fat(), clst) && fs.Fat()[clst] != 1
    modifies fs
    ensures fs.Valid() && fs.FatOnly() && fs.lastClst == old(fs.lastClst)
    ensures res == FR_OK ==> done == (old(fs.Fat())[clst] == 0) && nxt == old(fs.Fat())[clst]
    ensures res == FR_OK ==> fs.Fat() == (if done then old(fs.Fat()) else old(fs.Fat())[clst := 0])
    ensures res != FR_OK ==> res == FR_DISK_ERR && PutOutcome(fs.g, old(fs.Fat()), clst, 0, res, fs.Fat())
    ensures res == FR_OK || fs.g.fatType != FAT12 ==> CountOk(fs)
    ensures fs.freeClst == Raised(fs.g, old(fs.freeClst), if res == FR_OK && !done then 1 else 0)
  {
    res, done := FR_OK, false;
    nxt := fs.GetFat(clst);
    if nxt == 0 {
      done := true;
    } else if nxt == 1 {
      res := FR_INT_ERR;
    } else if nxt == DISK_ERROR {
      res := FR_DISK_ERR;
    } else {
      res := FreeCluster(fs, clst);
    }
  }

  /** Part of the way through freeing `s`: `k` clusters are free, `clst` is the next one. The countdown only keeps
      proofs from looking inside where FreeingIs is not called. */
  ghost predicate Freeing(f: seq<nat>, s: seq<nat>, k: nat, f': seq<nat>, clst: nat) {
    FreeingAfter(f, s, k, f', clst, |s|)
  }

  ghost predicate OpenFreeing(f: seq<nat>, s: seq<nat>, k: nat, f': seq<nat>, clst: nat) {
    k <= |s| && f' == FreeAll(f, s[..k]) && (k < |s| ==> Releasable(f', s[k..]) && clst == s[k])
  }

  ghost predicate FreeingAfter(f: seq<nat>, s: seq<nat>, k: nat, f': seq<nat>, clst: nat, countdown: nat) {
    if countdown > 0 then FreeingAfter(f, s, k, f', clst, countdown - 1) else OpenFreeing(f, s, k, f', clst)
  }

  lemma {:induction false} FreeingAfterIs(f: seq<nat>, s: seq<nat>, k: nat, f': seq<nat>, clst: nat, countdown: nat)
    ensures FreeingAfter(f, s, k, f', clst, countdown) <==> OpenFreeing(f, s, k, f', clst)
  {
    if countdown > 0 {
      FreeingAfterIs(f, s, k, f', clst, countdown - 1);
    }
  }

  lemma FreeingIs(f: seq<nat>, s: seq<nat>, k: nat, f': seq<nat>, clst: nat)
    ensures Freeing(f, s, k, f', clst) <==> OpenFreeing(f, s, k, f', clst)
  {
    FreeingAfterIs(f, s, k, f', clst, |s|);
  }

  lemma FreeingNext(f: seq<nat>, s: seq<nat>, k: nat, f': seq<nat>, clst: nat)
    requires Freeing(f, s, k, f', clst) && k < |s|
    ensures Allocated(f', clst) && f'[clst] != 1 && (f'[clst] >= |f'| <==> k + 1 == |s|)
    ensures Freeing(f, s, k + 1, f'[clst := 0], f'[clst])
  {
    FreeingIs(f, s, k, f', clst);
    ReleaseStep(f', s, k);
    FreeAllSnoc(f, s, k);
    FreeingIs(f, s, k + 1, f'[clst := 0], f'[clst]);
  }

  lemma FreeingStopped(g: Geometry, f: seq<nat>, s: seq<nat>, k: nat, f': seq<nat>, clst: nat, f'': seq<nat>)
    requires Freeing(f, s, k, f', clst) && k < |s| && PutOutcome(g, f', clst, 0, FR_DISK_ERR, f'')
    ensures StoppedAt(g, f, s, k, f'')
  {
    FreeingIs(f, s, k, f', clst);
  }

  lemma FreeingWhole(f: seq<nat>, s: seq<nat>, clst: nat)
    requires s != [] ==> Releasable(f, s) && clst == s[0]
    ensures Freeing(f, s, 0, f, clst)
  {
    assert s[..0] == [] && s[0..] == s;
    FreeingIs(f, s, 0, f, clst);
  }

  lemma FreeingDone(f: seq<nat>, s: seq<nat>, f': seq<nat>, clst: nat)
    requires Freeing(f, s, |s|, f', clst)
    ensures f' == FreeAll(f, s)
  {
    FreeingIs(f, s, |s|, f', clst);
    assert s[..|s|] == s;
  }

  /** One round, told by what it does to the chain. */
  method FreeRound(fs: Volume, clst: nat, ghost f: seq<nat>, ghost s: seq<nat>, ghost k: nat)
    returns (res: FResult, nxt: nat, done: bool)
    requires fs.Valid() && CountOk(fs) && Freeing(f, s, k, fs.Fat(), clst) && IsCluster(fs.Fat(), clst)
    requires if s == [] then k == 0 && fs.Fat() == f && fs.Fat()[clst] == 0 else k < |s|
    modifies fs
    ensures fs.Valid() && fs.FatOnly() && fs.lastClst == old(fs.lastClst)
    ensures fs.freeClst == Raised(fs.g, old(fs.freeClst), if res == FR_OK && !done then 1 else 0)
    ensures res == FR_OK || fs.g.fatType != FAT12 ==> CountOk(fs)
    ensures res == FR_OK ==> (done <==> s == [])
    ensures res == FR_OK && done ==> fs.Fat() == old(fs.Fat())
    ensures res == FR_OK && !done ==>
              Freeing(f, s, k + 1, fs.Fat(), nxt) && (nxt >= fs.g.nFatent <==> k + 1 == |s|)
              && (k + 1 < |s| ==> IsCluster(fs.Fat(), nxt))
    ensures res != FR_OK ==> res == FR_DISK_ERR && StoppedAt(fs.g, f, s, k, fs.Fat())
  {
    ghost var f' := fs.Fat();
    if s != [] {
      FreeingNext(f, s, k, f', clst);
    }
    res, nxt, done := FreeStep(fs, clst);
    if res != FR_OK {
      if s != [] { FreeingStopped(fs.g, f, s, k, f', clst, fs.Fat()); }
    } else if k + 1 < |s| {
      FreeingNext(f, s, k + 1, fs.Fat(), nxt);
    }
  }

  /** The loop of remove_chain: frees the clusters of `s` one after the other, following the links. */
  method FreeLinks(fs: Volume, start: nat, ghost s: seq<nat>) returns (res: FResult, ghost freed: nat)
    requires fs.Valid() && CountOk(fs) && IsCluster(fs.Fat(), start)
    requires if fs.Fat()[start] == 0 then s == [] else Releasable(fs.Fat(), s) && start == s[0]
    modifies fs
    ensures fs.Valid() && fs.FatOnly() && fs.lastClst == old(fs.lastClst)
    ensures res == FR_OK ==> fs.Fat() == FreeAll(old(fs.Fat()), s) && freed == |s|
    ensures res == FR_OK || fs.g.fatType != FAT12 ==> CountOk(fs)
    ensures res != FR_OK ==> res == FR_DISK_ERR && StoppedAt(fs.g, old(fs.Fat()), s, freed, fs.Fat())
    ensures fs.freeClst == Raised(fs.g, old(fs.freeClst), freed)
  {
    var clst: nat, done := start, false;
    ghost var f := fs.Fat();
    res, freed := FR_OK, 0;
    FreeingWhole(f, s, start);
    while !done
      invariant fs.Valid() && fs.FatOnly() && CountOk(fs) && fs.lastClst == old(fs.lastClst) && res == FR_OK
      invariant Freeing(f, s, freed, fs.Fat(), clst) && freed <= |s|
      invariant if s == [] then freed == 0 && clst == start && fs.Fat() == f else done <==> freed == |s|
      invariant !done ==> IsCluster(fs.Fat(), clst)
      invariant fs.freeClst == Raised(fs.g, old(fs.freeClst), freed)
      decreases !done, |s| - freed
    {
      var nxt: nat;
      res, nxt, done := FreeRound(fs, clst, f, s, freed);
      if res != FR_OK { return; }
      if !done {
        freed := freed + 1;
        clst := nxt;
        done := clst >= fs.g.nFatent;
      }
    }
    FreeingDone(f, s, fs.Fat(), clst);
  }

  /** `f` with the link from `pclst` cut off, unless that is 0. */
  function Cut(f: seq<nat>, pclst: nat, e: nat): (r: seq<nat>)
    ensures |r| == |f|
  {
    if IsCluster(f, pclst) then f[pclst := e] else f
  }

  /** The clusters that removing from `clst` on is about: none when it is free already. */
  ghost function Suffix(f: seq<nat>, clst: nat): seq<nat>
    requires WellFormed(f) && IsCluster(f, clst)
  {
    WellFormedIff(f);
    if f[clst] == 0 then [] else ChainOf(f, clst)
  }

  /** What the caller of remove_chain owes: `pclst` is the cluster that links to `clst`, or 0 when none does. */
  ghost predicate Removable(f: seq<nat>, clst: nat, pclst: nat) {
    if pclst == 0 then IsHead(f, clst) else IsCluster(f, pclst) && f[pclst] == clst
  }

  lemma RemoveReady(f: seq<nat>, clst: nat, pclst: nat, e: nat)
    requires WellFormed(f) && IsCluster(f, clst) && Removable(f, clst, pclst) && e >= |f|
    ensures var f1, s := Cut(f, pclst, e), Suffix(f, clst);
            && WellFormed(f1) && WellFormed(FreeAll(f1, s)) && FreeCount(f1) == FreeCount(f) && pclst !in s
            && if f1[clst] == 0 then s == [] else Releasable(f1, s) && s[0] == clst
  {
    var f1, s := Cut(f, pclst, e), Suffix(f, clst);
    if f[clst] == 0 {
      if pclst != 0 {
        FreeIsHead(f, clst);
      }
    } else {
      if pclst != 0 {
        CutBefore(f, pclst, clst, e, s);
      } else {
        assert forall i :: 0 <= i < |s| ==> IsCluster(f, s[i]);
      }
      ChainReleasable(f1, s);
    }
  }

  /** What removing from `clst` on leaves: exactly the suffix freed and the link to it replaced by an end mark. On a
      disk error a first part of that has been done, the last entry as put_fat left it. */
  ghost predicate RemoveOutcome(g: Geometry, f: seq<nat>, clst: nat, pclst: nat, res: FResult, f': seq<nat>)
    requires WellFormed(f)
  {
    if !IsCluster(f, clst) then res == FR_INT_ERR && f' == f
    else
      var f1, s := Cut(f, pclst, EndMarkOf(g.fatType)), Suffix(f, clst);
      || (res == FR_OK && f' == FreeAll(f1, s))
      || (res == FR_DISK_ERR && pclst != 0 && PutOutcome(g, f, pclst, 0xFFFF_FFFF, res, f'))
      || (res == FR_DISK_ERR && (f' == f1 || FreeStopped(g, f1, s, f')))
  }

  /** The same, with the number of clusters that have been freed. */
  ghost predicate RemoveExact(g: Geometry, f: seq<nat>, clst: nat, pclst: nat, res: FResult, f': seq<nat>, freed: nat)
    requires WellFormed(f)
  {
    if !IsCluster(f, clst) then res == FR_INT_ERR && f' == f && freed == 0
    else
      var f1, s := Cut(f, pclst, EndMarkOf(g.fatType)), Suffix(f, clst);
      || (res == FR_OK && f' == FreeAll(f1, s) && freed == |s|)
      || (res == FR_DISK_ERR && freed == 0 && pclst != 0 && PutOutcome(g, f, pclst, 0xFFFF_FFFF, res, f'))
      || (res == FR_DISK_ERR && StoppedAt(g, f1, s, freed, f'))
  }

  /** Frees the chain from `clst` on and makes `pclst`, the cluster before it, the end of what remains. */
  method RemoveChain(fs: Volume, clst: nat, pclst: nat) returns (res: FResult, ghost freed: nat)
    requires fs.Valid() && WellFormed(fs.Fat()) && CountOk(fs)
    requires IsCluster(fs.Fat(), clst) ==> Removable(fs.Fat(), clst, pclst)
    modifies fs
    ensures fs.Valid() && fs.FatOnly() && fs.lastClst == old(fs.lastClst)
    ensures RemoveOutcome(fs.g, old(fs.Fat()), clst, pclst, res, fs.Fat())
    ensures RemoveExact(fs.g, old(fs.Fat()), clst, pclst, res, fs.Fat(), freed)
    ensures fs.freeClst == Raised(fs.g, old(fs.freeClst), freed)
    ensures res != FR_DISK_ERR || fs.g.fatType != FAT12 ==> CountOk(fs)
  {
    res, freed := FR_INT_ERR, 0;
    if clst >= 2 && clst < fs.g.nFatent {
      res := FR_OK;
      MaskedValues(fs.g, clst);
      ghost var s := Suffix(fs.Fat(), clst);
      RemoveReady(fs.Fat(), clst, pclst, EndMarkOf(fs.g.fatType));
      if pclst != 0 {
        res := fs.PutFat(pclst, 0xFFFF_FFFF);
      }
      if res == FR_OK {
        res, freed := FreeLinks(fs, clst, s);
      }
    }
  }

  /** Whatever the outcome, only the cluster before and the clusters to be freed have changed. */
  lemma RemoveElsewhere(g: Geometry, f: seq<nat>, clst: nat, pclst: nat, res: FResult, f': seq<nat>, c: nat)
    requires WellFormed(f) && IsCluster(f, clst) && RemoveOutcome(g, f, clst, pclst, res, f')
    requires c < |f| && (pclst == 0 || c != pclst) && c !in Suffix(f, clst)
    ensures |f'| == |f| && f'[c] == f[c]
  {
    var f1, s := Cut(f, pclst, EndMarkOf(g.fatType)), Suffix(f, clst);
    if res == FR_OK && f' == FreeAll(f1, s) {
      FreeAllOther(f1, s, c);
    } else if FreeStopped(g, f1, s, f') {
      var k :| 0 <= k < |s| && PutOutcome(g, FreeAll(f1, s[..k]), s[k], 0, FR_DISK_ERR, f');
      FreeAllOther(f1, s[..k], c);
      assert s[k] in s;
    }
  }

  lemma {:induction false} FreeAllOther(f: seq<nat>, s: seq<nat>, c: nat)
    requires c < |f| && c !in s
    ensures FreeAll(f, s)[c] == f[c]
    decreases |s|
  {
    if s != [] {
      FreeAllOther(if IsCluster(f, s[0]) then f[s[0] := 0] else f, s[1..], c);
    }
  }

  /** Done to the end it keeps the table well-formed. */
  lemma RemoveKeeps(g: Geometry, f: seq<nat>, clst: nat, pclst: nat, f': seq<nat>)
    requires ValidGeometry(g) && |f| == g.nFatent && WellFormed(f) && IsCluster(f, clst)
    requires Removable(f, clst, pclst) && RemoveOutcome(g, f, clst, pclst, FR_OK, f')
    ensures |f'| == |f| && WellFormed(f')
  {
    MaskedValues(g, clst);
    RemoveReady(f, clst, pclst, EndMarkOf(g.fatType));
  }

  // Counting free clusters.

  /** FAT12: asks for every entry from 2 on. */
  method ScanEntries(fs: Volume) returns (res: FResult, nfree: nat)
    requires fs.Valid()
    modifies fs`disk, fs`wflag, fs`mirrorLost, fs`win, fs`winsect
    ensures fs.Peeked()
    ensures res == FR_OK ==> nfree == FreeCount(fs.Fat())
  {
    res, nfree := FR_OK, 0;
    var clst := 2;
    while clst < fs.g.nFatent
      invariant fs.Peeked() && 2 <= clst <= fs.g.nFatent && nfree == CountFree(fs.Fat(), clst)
    {
      var stat := fs.GetFat(clst);
      if stat == DISK_ERROR { res := FR_DISK_ERR; return; }
      if stat == 1 { res := FR_INT_ERR; return; }
      if stat == 0 { nfree := nfree + 1; }
      clst := clst + 1;
    }
  }

  /** Entry `c` read off sector `k` in the window, at the byte offset `o` where it lies. */
  lemma WindowEntry(t: seq<byte>, ty: FatType, c: nat, k: nat, o: nat, w: Sector)
    requires ty != FAT12 && Fits(|t|, ty, c) && IsSlice(t, k, w) && ByteOffset(ty, c) == 512 * k + o && o < 512
    ensures o + ByteWidth(ty) <= 512
    ensures (if ty == FAT16 then LdWord(w, o) else LdDword(w, o) % 0x1000_0000) == Entry(t, ty, c)
  {
    if ty == FAT16 {
      SpliceWord(t, k, w, o, 0);
    } else {
      SpliceDword(t, k, w, o, 0);
    }
  }

  /** The scan stands before entry `c`: at byte `i` of the sector in the window, or at the start of sector `sect`. */
  ghost predicate ScanAt(ty: FatType, t: seq<byte>, w: seq<byte>, c: nat, sect: nat, i: nat) {
    if i == 0 then ByteOffset(ty, c) == 512 * sect
    else i < 512 && sect > 0 && ByteOffset(ty, c) == 512 * (sect - 1) + i && IsSlice(t, sect - 1, w)
  }

  lemma ScanNext(ty: FatType, t: seq<byte>, w: seq<byte>, c: nat, sect: nat, i: nat)
    requires ty != FAT12 && sect > 0 && i < 512 && ByteOffset(ty, c) == 512 * (sect - 1) + i && IsSlice(t, sect - 1, w)
    ensures ScanAt(ty, t, w, c + 1, sect, (i + ByteWidth(ty)) % 512)
  {
    var b := ByteWidth(ty);
    assert i + b <= 512 by {
      if ty == FAT16 {
        assert i == 2 * (c - 256 * (sect - 1));
      } else {
        assert i == 4 * (c - 128 * (sect - 1));
      }
    }
    assert (i + b) % 512 == if i + b < 512 then i + b else 0;
  }

  /** Looks at entry `c`, loading its sector when it is the first one there. */
  method ScanEntry(fs: Volume, sect: nat, i: nat, ghost c: nat) returns (res: FResult, sect': nat, free: bool)
    requires && fs.Valid() && fs.g.fatType != FAT12 && c < fs.g.nFatent
             && ScanAt(fs.g.fatType, fs.Image().fat, fs.win, c, sect, i)
    modifies fs`disk, fs`wflag, fs`mirrorLost, fs`win, fs`winsect
    ensures fs.Peeked()
    ensures res == FR_OK ==> free == (fs.Fat()[c] == 0)
    ensures res == FR_OK ==>
              ScanAt(fs.g.fatType, fs.Image().fat, fs.win, c + 1, sect', (i + ByteWidth(fs.g.fatType)) % 512)
  {
    res, sect' := FR_OK, sect;
    ghost var t := fs.Image().fat;
    fs.FatAt(c);
    if i == 0 {
      res := fs.MoveToFat(sect);
      sect' := sect + 1;
    }
    free := false;
    if res == FR_OK {
      ScanHere(fs.g.fatType, t, fs.win, c, sect', i);
      free := EntryFree(fs.g.fatType, fs.win, i);
    }
  }

  /** The scan's test of the entry at byte `i` of a sector. */
  predicate EntryFree(ty: FatType, w: Sector, i: nat)
    requires ty != FAT12 && i + ByteWidth(ty) <= 512
  {
    if ty == FAT16 then LdWord(w, i) == 0 else LdDword(w, i) % 0x1000_0000 == 0
  }

  lemma ScanHere(ty: FatType, t: seq<byte>, w: Sector, c: nat, sect: nat, i: nat)
    requires && ty != FAT12 && Fits(|t|, ty, c) && sect > 0 && i < 512 && ByteOffset(ty, c) == 512 * (sect - 1) + i
             && IsSlice(t, sect - 1, w)
    ensures i + ByteWidth(ty) <= 512 && (EntryFree(ty, w, i) <==> Entry(t, ty, c) == 0)
    ensures ScanAt(ty, t, w, c + 1, sect, (i + ByteWidth(ty)) % 512)
  {
    WindowEntry(t, ty, c, sect - 1, i, w);
    ScanNext(ty, t, w, c, sect, i);
  }

  /** FAT16 and FAT32: walks over the sectors of the table from its very first entry. */
  method ScanSectors(fs: Volume) returns (res: FResult, nfree: nat)
    requires fs.Valid() && fs.g.fatType != FAT12
    modifies fs`disk, fs`wflag, fs`mirrorLost, fs`win, fs`winsect
    ensures fs.Peeked()
    ensures res == FR_OK ==> nfree == Zeros(fs.Fat(), fs.g.nFatent)
  {
    var clst, sect: nat, i: nat, free := fs.g.nFatent, 0, 0, false;
    ghost var c: nat := 0;
    res, nfree := FR_OK, 0;
    while clst > 0 && res == FR_OK
      invariant fs.Peeked() && c + clst == fs.g.nFatent
      invariant res == FR_OK ==> nfree == Zeros(fs.Fat(), c) && ScanAt(fs.g.fatType, fs.Image().fat, fs.win, c, sect, i)
    {
      res, sect, free := ScanEntry(fs, sect, i, c);
      if free { nfree := nfree + 1; }
      i := (i + if fs.g.fatType == FAT16 then 2 else 4) % 512;
      c := c + 1;
      clst := clst - 1;
    }
  }

  /** The reserved entries that a scan from the very first entry on takes for free clusters. */
  function ReservedZeros(f: seq<nat>): nat
    requires |f| >= 2
  {
    (if f[0] == 0 then 1 else 0) + (if f[1] == 0 then 1 else 0)
  }

  /** It does so on an empty table that was never given its two reserved marks. */
  lemma ReservedCounted(n: nat)
    requires n >= 3
    ensures exists f: seq<nat> :: |f| == n && WellFormed(f) && Zeros(f, n) == FreeCount(f) + 2
  {
    var f: seq<nat> := seq(n, _ => 0);
    WellFormedIff(f);
    ZerosAndFree(f, n);
    assert |f| == n && WellFormed(f) && Zeros(f, n) == FreeCount(f) + 2;
  }

  /** Counts the free clusters, each type of table in its own way. */
  method Scan(fs: Volume) returns (res: FResult, nfree: nat)
    requires fs.Valid()
    modifies fs`disk, fs`wflag, fs`mirrorLost, fs`win, fs`winsect
    ensures fs.Peeked()
    ensures res == FR_OK ==> nfree == FreeCount(fs.Fat()) + if fs.g.fatType == FAT12 then 0 else ReservedZeros(fs.Fat())
  {
    if fs.g.fatType == FAT12 {
      res, nfree := ScanEntries(fs);
    } else {
      res, nfree := ScanSectors(fs);
      ZerosAndFree(fs.Fat(), fs.g.nFatent);
    }
  }

  /** The number of free clusters, from the cached count when that is known and else by a scan that makes it known.
      Exact unless a FAT16 or FAT32 scan meets a zero in one of the two reserved entries, which it counts too. */
  method GetFree(fs: Volume) returns (res: FResult, nclst: nat)
    requires fs.Valid() && CountOk(fs)
    modifies fs
    ensures fs.Peeked() && fs.lastClst == old(fs.lastClst)
    ensures res == FR_OK ==> fs.freeClst == nclst
    ensures res == FR_OK ==> var f := fs.Fat();
              var known := old(fs.freeClst) <= fs.g.nFatent - 2 || fs.g.fatType == FAT12;
              nclst == FreeCount(f) + if known then 0 else ReservedZeros(f)
    ensures res == FR_OK ==> var f := fs.Fat();
              CountOk(fs) <==> old(fs.freeClst) <= fs.g.nFatent - 2 || fs.g.fatType == FAT12
                               || ReservedZeros(f) == 0 || FreeCount(f) + ReservedZeros(f) > fs.g.nFatent - 2
    ensures res != FR_OK ==> fs.freeClst == old(fs.freeClst)
  {
    res := FR_OK;
    if fs.freeClst <= fs.g.nFatent - 2 {
      nclst := fs.freeClst;
    } else {
      res, nclst := Scan(fs);
      if res == FR_OK {
        fs.freeClst := nclst;
        fs.fsiDirty := true;
      }
    }
  }
}
