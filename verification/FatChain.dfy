/** Cluster chains: what the allocation table means, independent of how it is stored. */
module FatChain {

  predicate IsCluster(f: seq<nat>, c: nat) {
    2 <= c < |f|
  }

  predicate Allocated(f: seq<nat>, c: nat) {
    IsCluster(f, c) && f[c] != 0
  }

  /** `s` follows the links of `f` from its first cluster to an end mark. */
  predicate IsChain(f: seq<nat>, s: seq<nat>) {
    && |s| > 0
    && (forall i :: 0 <= i < |s| ==> IsCluster(f, s[i]))
    && (forall i :: 0 <= i < |s| - 1 ==> f[s[i]] == s[i + 1])
    && f[s[|s| - 1]] >= |f|
  }

  ghost predicate HasChain(f: seq<nat>, c: nat) {
    exists s :: IsChain(f, s) && s[0] == c
  }

  /** No cluster links to `c`: a chain can only start there. */
  ghost predicate IsHead(f: seq<nat>, c: nat) {
    forall d: nat :: IsCluster(f, d) ==> f[d] != c
  }

  /** The table is a set of chains: following links from any cluster in use ends at an end mark without meeting a free
      cluster or a loop, and no two clusters link to the same one. */
  ghost predicate IsChainSet(f: seq<nat>) {
    && (forall c: nat :: Allocated(f, c) ==> HasChain(f, c))
    && (forall c: nat, d: nat :: IsCluster(f, c) && IsCluster(f, d) && c != d && IsCluster(f, f[c]) ==> f[c] != f[d])
  }

  /** The same, cluster by cluster. */
  ghost predicate WellFormedTo(f: seq<nat>, n: nat)
    requires n <= |f|
  {
    n <= 2 || (
      && WellFormedTo(f, n - 1)
      && (f[n - 1] != 0 ==> HasChain(f, n - 1))
      && (IsCluster(f, f[n - 1]) ==> forall d :: 2 <= d < |f| && d != n - 1 ==> f[d] != f[n - 1])
    )
  }

  ghost predicate WellFormed(f: seq<nat>) {
    WellFormedTo(f, |f|)
  }

  lemma {:induction false} WellFormedToIff(f: seq<nat>, n: nat)
    requires n <= |f|
    ensures WellFormedTo(f, n) <==>
            && (forall c: nat :: c < n && Allocated(f, c) ==> HasChain(f, c))
            && (forall c: nat, d: nat ::
                  c < n && IsCluster(f, c) && IsCluster(f, d) && c != d && IsCluster(f, f[c]) ==> f[c] != f[d])
  {
    if n > 2 {
      WellFormedToIff(f, n - 1);
      if WellFormedTo(f, n) {
        forall c: nat, d: nat | c < n && IsCluster(f, c) && IsCluster(f, d) && c != d && IsCluster(f, f[c])
          ensures f[c] != f[d]
        {
        }
      } else {
        assert IsCluster(f, n - 1);
        if d: nat :| 2 <= d < |f| && d != n - 1 && f[d] == f[n - 1] {
          assert IsCluster(f, d);
        }
      }
    }
  }

  lemma WellFormedIff(f: seq<nat>)
    ensures WellFormed(f) <==> IsChainSet(f)
  {
    WellFormedToIff(f, |f|);
  }

  ghost function ChainOf(f: seq<nat>, c: nat): (s: seq<nat>)
    requires HasChain(f, c)
    ensures IsChain(f, s) && s[0] == c
  {
    var s :| IsChain(f, s) && s[0] == c; s
  }

  /** Links determine the chain. */
  lemma {:induction false} ChainUnique(f: seq<nat>, s: seq<nat>, t: seq<nat>)
    requires IsChain(f, s) && IsChain(f, t) && s[0] == t[0]
    ensures s == t
    decreases |s|
  {
    if |s| > 1 {
      assert f[s[0]] == s[1] && IsCluster(f, s[1]);
    }
    if |t| > 1 {
      assert f[t[0]] == t[1] && IsCluster(f, t[1]);
    }
    if |s| > 1 && |t| > 1 {
      ChainTail(f, s);
      ChainTail(f, t);
      ChainUnique(f, s[1..], t[1..]);
      assert s == [s[0]] + s[1..] && t == [t[0]] + t[1..];
    }
  }

  lemma ChainTail(f: seq<nat>, s: seq<nat>)
    requires IsChain(f, s) && |s| > 1
    ensures IsChain(f, s[1..])
  {
  }

  lemma ChainSuffix(f: seq<nat>, s: seq<nat>, i: nat)
    requires IsChain(f, s) && i < |s|
    ensures IsChain(f, s[i..])
  {
  }

  /** A chain never comes back to a cluster. */
  lemma ChainDistinct(f: seq<nat>, s: seq<nat>, i: nat, j: nat)
    requires IsChain(f, s) && i < j < |s|
    ensures s[i] != s[j]
  {
    if s[i] == s[j] {
      ChainSuffix(f, s, i);
      ChainSuffix(f, s, j);
      ChainUnique(f, s[i..], s[j..]);
      assert false;
    }
  }

  /** In a well-formed table a link goes to a cluster in use, never to itself. */
  lemma LinkTarget(f: seq<nat>, c: nat)
    requires WellFormed(f) && Allocated(f, c)
    ensures f[c] >= |f| || (Allocated(f, f[c]) && f[c] != c)
  {
    WellFormedIff(f);
    var s := ChainOf(f, c);
    if |s| > 1 {
      ChainDistinct(f, s, 0, 1);
      assert IsCluster(f, s[1]);
      assert |s| > 2 ==> IsCluster(f, s[2]);
    }
  }

  /** Chains from two different heads are disjoint. */
  lemma {:induction false} HeadsDisjoint(f: seq<nat>, s: seq<nat>, t: seq<nat>, i: nat, j: nat)
    requires WellFormed(f) && IsChain(f, s) && IsChain(f, t) && i < |s| && j < |t|
    requires IsHead(f, s[0]) && IsHead(f, t[0]) && s[0] != t[0]
    ensures s[i] != t[j]
    decreases i
  {
    WellFormedIff(f);
    assert i > 0 ==> f[s[i - 1]] == s[i] && IsCluster(f, s[i - 1]);
    assert j > 0 ==> f[t[j - 1]] == t[j] && IsCluster(f, t[j - 1]);
    if i > 0 && j > 0 {
      HeadsDisjoint(f, s, t, i - 1, j - 1);
      assert IsCluster(f, s[i]);
    }
  }

  // The three changes the source makes to a table, one entry at a time.

  /** Putting an end mark anywhere, on a free cluster or inside a chain, keeps the table well formed. */
  lemma EndMark(f: seq<nat>, c: nat, e: nat)
    requires WellFormed(f) && IsCluster(f, c) && e >= |f|
    ensures WellFormed(f[c := e])
  {
    WellFormedIff(f);
    var f' := f[c := e];
    forall a: nat | Allocated(f', a) ensures HasChain(f', a) {
      if a == c {
        assert IsChain(f', [c]);
      } else {
        var s := ChainOf(f, a);
        if i :| 0 <= i < |s| && s[i] == c {
          EndMarkInside(f, c, e, s, i);
        } else {
          assert IsChain(f', s);
        }
      }
    }
    WellFormedIff(f');
  }

  lemma EndMarkInside(f: seq<nat>, c: nat, e: nat, s: seq<nat>, i: nat)
    requires IsChain(f, s) && i < |s| && s[i] == c && e >= |f|
    ensures IsChain(f[c := e], s[..i + 1])
  {
    forall j | 0 <= j < i ensures s[j] != c {
      ChainDistinct(f, s, j, i);
    }
  }

  /** So does freeing the head of a chain. */
  lemma FreeHead(f: seq<nat>, c: nat)
    requires WellFormed(f) && Allocated(f, c) && IsHead(f, c)
    ensures WellFormed(f[c := 0])
    ensures IsCluster(f, f[c]) ==> Allocated(f[c := 0], f[c]) && IsHead(f[c := 0], f[c])
  {
    WellFormedIff(f);
    var f' := f[c := 0];
    forall a: nat | Allocated(f', a) ensures HasChain(f', a) {
      var s := ChainOf(f, a);
      forall i | 0 <= i < |s| ensures s[i] != c {
        if i > 0 { assert f[s[i - 1]] == s[i]; }
      }
      assert IsChain(f', s);
    }
    LinkTarget(f, c);
    WellFormedIff(f');
  }

  /** So does linking the end of a chain to a chain of one cluster. */
  lemma LinkEnd(f: seq<nat>, c: nat, d: nat)
    requires WellFormed(f) && IsCluster(f, c) && f[c] >= |f|
    requires IsCluster(f, d) && f[d] >= |f| && IsHead(f, d) && c != d
    ensures WellFormed(f[c := d])
  {
    WellFormedIff(f);
    var f' := f[c := d];
    forall a: nat | Allocated(f', a) ensures HasChain(f', a) {
      LinkEndFrom(f, c, d, a);
    }
    WellFormedIff(f');
  }

  lemma LinkEndFrom(f: seq<nat>, c: nat, d: nat, a: nat)
    requires WellFormed(f) && IsCluster(f, c) && f[c] >= |f| && Allocated(f, a)
    requires IsCluster(f, d) && f[d] >= |f| && IsHead(f, d) && c != d
    ensures HasChain(f[c := d], a)
  {
    WellFormedIff(f);
    var f', s := f[c := d], ChainOf(f, a);
    var last := |s| - 1;
    forall i | 0 <= i < last ensures s[i] != c {
      assert f[s[i]] == s[i + 1];
    }
    if s[last] == c {
      assert IsChain(f', s + [d]);
    } else {
      assert IsChain(f', s);
    }
  }

  /** A free cluster is a head. */
  lemma FreeIsHead(f: seq<nat>, c: nat)
    requires WellFormed(f) && IsCluster(f, c) && f[c] == 0
    ensures IsHead(f, c)
  {
    forall d: nat | IsCluster(f, d) ensures f[d] != c {
      if Allocated(f, d) {
        LinkTarget(f, d);
      }
    }
  }

  // Free clusters, and their number.

  /** The number of zero entries of `f` from 2 up to `n`. */
  function CountFree(f: seq<nat>, n: nat): (k: nat)
    requires n <= |f|
    ensures k <= if n <= 2 then 0 else n - 2
  {
    if n <= 2 then 0 else CountFree(f, n - 1) + if f[n - 1] == 0 then 1 else 0
  }

  function FreeCount(f: seq<nat>): nat {
    CountFree(f, |f|)
  }

  /** Changing one entry moves the count by what that entry contributes. */
  lemma {:induction false} CountUpdate(f: seq<nat>, c: nat, v: nat, n: nat)
    requires IsCluster(f, c) && n <= |f|
    ensures CountFree(f[c := v], n) ==
            CountFree(f, n) + if c < n then (if v == 0 then 1 else 0) - (if f[c] == 0 then 1 else 0) else 0
  {
    if n > 2 {
      CountUpdate(f, c, v, n - 1);
    }
  }

  /** The count is zero exactly when there is nothing to allocate, and full only when nothing is in use. */
  lemma {:induction false} CountExtremes(f: seq<nat>, n: nat)
    requires n <= |f|
    ensures CountFree(f, n) == 0 <==> forall c :: 2 <= c < n ==> f[c] != 0
    ensures n > 2 ==> (CountFree(f, n) == n - 2 <==> forall c :: 2 <= c < n ==> f[c] == 0)
  {
    if n > 2 {
      CountExtremes(f, n - 1);
    }
  }

  lemma FreeOne(f: seq<nat>, c: nat)
    requires Allocated(f, c)
    ensures FreeCount(f[c := 0]) == FreeCount(f) + 1 <= |f| - 2
  {
    CountUpdate(f, c, 0, |f|);
  }

  // Releasing a whole chain.

  /** Following links from `s[0]` visits `s` and then an end mark, and freeing clusters as they are left keeps the
      table well formed at each step. */
  ghost predicate Releasable(f: seq<nat>, s: seq<nat>)
    decreases |s|
  {
    && |s| > 0 && Allocated(f, s[0]) && WellFormed(f[s[0] := 0])
    && (if |s| == 1 then f[s[0]] >= |f| else f[s[0]] == s[1] && Releasable(f[s[0] := 0], s[1..]))
  }

  /** `f` with every cluster of `s` freed. */
  function FreeAll(f: seq<nat>, s: seq<nat>): (r: seq<nat>)
    ensures |r| == |f|
    decreases |s|
  {
    if s == [] then f else FreeAll(if IsCluster(f, s[0]) then f[s[0] := 0] else f, s[1..])
  }

  /** Exactly the clusters of `s` become free; every other entry is as it was. */
  lemma {:induction false} FreeAllAt(f: seq<nat>, s: seq<nat>, c: nat)
    requires IsCluster(f, c)
    ensures FreeAll(f, s)[c] == if c in s then 0 else f[c]
    decreases |s|
  {
    if s != [] {
      FreeAllAt(if IsCluster(f, s[0]) then f[s[0] := 0] else f, s[1..], c);
      assert s == [s[0]] + s[1..];
    }
  }

  /** A chain that nothing links to can be released cluster by cluster; in the end the table is well formed. */
  lemma {:induction false} ChainReleasable(f: seq<nat>, s: seq<nat>)
    requires WellFormed(f) && IsChain(f, s) && IsHead(f, s[0])
    ensures Releasable(f, s) && WellFormed(FreeAll(f, s))
    decreases |s|
  {
    FreeFirst(f, s);
    if |s| > 1 {
      ChainReleasable(f[s[0] := 0], s[1..]);
    }
  }

  /** Freeing the first cluster of a chain that nothing links to leaves the rest as such a chain. */
  lemma FreeFirst(f: seq<nat>, s: seq<nat>)
    requires WellFormed(f) && IsChain(f, s) && IsHead(f, s[0])
    ensures Allocated(f, s[0])
    ensures var f' := f[s[0] := 0];
            && WellFormed(f') && FreeCount(f') == FreeCount(f) + 1
            && (if |s| == 1 then f[s[0]] >= |f| else f[s[0]] == s[1] && IsChain(f', s[1..]) && IsHead(f', s[1]))
  {
    var c := s[0];
    if |s| > 1 {
      assert f[c] == s[1] && IsCluster(f, s[1]);
      forall i | 1 <= i < |s| ensures s[i] != c {
        ChainDistinct(f, s, 0, i);
      }
      FirstFreed(f, s);
    }
    FreeHead(f, c);
    CountUpdate(f, c, 0, |f|);
  }

  lemma FirstFreed(f: seq<nat>, s: seq<nat>)
    requires IsChain(f, s) && |s| > 1 && forall i :: 1 <= i < |s| ==> s[i] != s[0]
    ensures IsChain(f[s[0] := 0], s[1..])
  {
  }

  /** Cutting a chain before `c` makes `c` a head and keeps the chain from there on. */
  lemma CutBefore(f: seq<nat>, p: nat, c: nat, e: nat, s: seq<nat>)
    requires WellFormed(f) && IsCluster(f, p) && f[p] == c && IsChain(f, s) && s[0] == c && e >= |f|
    ensures var f' := f[p := e]; WellFormed(f') && IsHead(f', c) && IsChain(f', s) && FreeCount(f') == FreeCount(f)
    ensures p !in s
  {
    var f' := f[p := e];
    EndMark(f, p, e);
    CountUpdate(f, p, e, |f|);
    assert IsCluster(f, s[0]);
    assert IsHead(f', c) by { WellFormedIff(f); }
    assert IsChain(f, [p] + s) by { PrependLink(f, p, s); }
    forall i | 0 <= i < |s| ensures s[i] != p {
      ChainDistinct(f, [p] + s, 0, i + 1);
      assert ([p] + s)[i + 1] == s[i];
    }
    assert IsChain(f', s);
  }

  lemma PrependLink(f: seq<nat>, p: nat, s: seq<nat>)
    requires IsCluster(f, p) && IsChain(f, s) && f[p] == s[0]
    ensures IsChain(f, [p] + s)
  {
  }

  lemma {:induction false} FreeAllSnoc(f: seq<nat>, s: seq<nat>, k: nat)
    requires k < |s| && IsCluster(f, s[k])
    ensures FreeAll(f, s[..k + 1]) == FreeAll(f, s[..k])[s[k] := 0]
    decreases k
  {
    if k > 0 {
      var f1 := if IsCluster(f, s[0]) then f[s[0] := 0] else f;
      FreeAllSnoc(f1, s[1..], k - 1);
      assert s[..k + 1][1..] == s[1..][..k] && s[..k][1..] == s[1..][..k - 1];
    } else {
      assert s[..1] == [s[0]];
    }
  }

  /** Released one by one: after `k` clusters the rest is still releasable and the table still well formed. */
  lemma {:induction false} ReleasedTo(f: seq<nat>, s: seq<nat>, k: nat)
    requires WellFormed(f) && Releasable(f, s) && k <= |s|
    ensures WellFormed(FreeAll(f, s[..k]))
    ensures k < |s| ==> Releasable(FreeAll(f, s[..k]), s[k..])
    decreases k
  {
    if k == 0 {
      assert s[..0] == [] && s[0..] == s;
    } else {
      assert s[..k][0] == s[0] && s[..k][1..] == s[1..][..k - 1] && s[k..] == s[1..][k - 1..];
      if |s| == 1 {
        assert s[1..][..0] == [];
      } else {
        ReleasedTo(f[s[0] := 0], s[1..], k - 1);
      }
    }
  }

  /** One step of the release, in terms of the whole chain. */
  lemma ReleaseStep(f: seq<nat>, s: seq<nat>, k: nat)
    requires k < |s| && Releasable(f, s[k..])
    ensures Allocated(f, s[k]) && f[s[k]] != 1
    ensures if k == |s| - 1 then f[s[k]] >= |f|
            else f[s[k]] == s[k + 1] < |f| && Releasable(f[s[k] := 0], s[k + 1..])
  {
    assert s[k..][0] == s[k];
    if k < |s| - 1 {
      assert s[k..][1] == s[k + 1] && s[k..][1..] == s[k + 1..];
      assert s[k + 1..][0] == s[k + 1];
    }
  }

  /** The number of zero entries among the first `n`, the two reserved ones included. */
  function Zeros(f: seq<nat>, n: nat): nat
    requires n <= |f|
  {
    if n == 0 then 0 else Zeros(f, n - 1) + if f[n - 1] == 0 then 1 else 0
  }

  lemma {:induction false} ZerosAndFree(f: seq<nat>, n: nat)
    requires 2 <= n <= |f|
    ensures Zeros(f, n) == CountFree(f, n) + (if f[0] == 0 then 1 else 0) + (if f[1] == 0 then 1 else 0)
  {
    if n > 2 {
      ZerosAndFree(f, n - 1);
    } else {
      assert Zeros(f, 2) == Zeros(f, 1) + if f[1] == 0 then 1 else 0;
    }
  }
}
