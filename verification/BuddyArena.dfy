/** The state of a buddy allocator, and what each of its elementary changes keeps. */
module BuddyArena {
  import opened BuddyMath
  import opened BuddyTree
  import opened BuddyRing

  /** The arena of 2^m bytes at base: its headers, and what they stand for: the free lists and the tree of blocks. */
  datatype Arena = Arena(base: nat, m: nat, mem: Mem, lists: seq<seq<nat>>, tree: Tree) {

    predicate Shaped() {
      Multiple(base, m) && Fits(tree, m) && Coalesced(tree) && |lists| == m + 1
    }

    ghost function FreeSet(): set<Block>
      requires Fits(tree, m)
    {
      FreeBlocks(tree, base, m)
    }

    ghost function UsedSet(): set<Block>
      requires Fits(tree, m)
    {
      UsedBlocks(tree, base, m)
    }

    /** Every list is a ring of headers. */
    ghost predicate Linked() {
      |lists| == m + 1 && forall k :: 0 <= k <= m ==> Ring(mem, k, lists[k]) && Distinct(lists[k])
    }

    /** The lists hold exactly the free blocks, each in the list of its order. */
    ghost predicate Listed() {
      && |lists| == m + 1 && Fits(tree, m)
      && forall k: nat, x: nat :: k <= m ==> (x in lists[k] <==> Block(x, k) in FreeSet())
    }

    /** Blocks in use are marked so, with their order, but for one that is being worked on. */
    ghost predicate Marked(skip: set<nat>) {
      && Fits(tree, m)
      && forall b ::
           b in UsedSet() && b.addr !in skip ==>
             Blk(b.addr) in mem && !mem[Blk(b.addr)].tag && mem[Blk(b.addr)].kval == b.order
    }

    /** There are headers at the starts of blocks and nowhere else in the arena. */
    ghost predicate Headed() {
      Fits(tree, m) && forall y: nat :: Blk(y) in mem <==> IsStart(tree, base, m, y)
    }

    ghost predicate Sound() {
      Shaped() && Linked() && Listed() && Marked({}) && Headed()
    }

    /** Block (x, k) has been taken out and its header may say anything. */
    ghost predicate Pending(x: nat, k: nat) {
      Shaped() && Linked() && Listed() && Marked({x}) && Headed() && Block(x, k) in UsedSet()
    }
  }

  lemma FreeHeader(z: Arena, x: nat, k: nat)
    requires z.Shaped() && z.Linked() && z.Listed() && Block(x, k) in z.FreeSet()
    ensures k <= z.m && x in z.lists[k] && Blk(x) in z.mem && z.mem[Blk(x)].tag && z.mem[Blk(x)].kval == k
  {
    InArena(z.tree, z.base, z.m, Block(x, k));
    MemberHeader(z.mem, k, z.lists[k], x);
  }

  /** A block cannot be free and in use, or of two orders. */
  lemma OneBlock(z: Arena, b: Block, c: Block)
    requires z.Shaped() && b in Blocks(z.tree, z.base, z.m) && c in Blocks(z.tree, z.base, z.m) && b.addr == c.addr
    ensures b == c && (b in z.FreeSet() ==> b !in z.UsedSet())
  {
    Disjoint(z.tree, z.base, z.m, b, c, b.addr);
  }

  // Taking a block out of its list.

  lemma {:induction false} UnlinkLists(mem: Mem, lists: seq<seq<nat>>, k: nat, i: nat)
    requires && k < |lists| && i < |lists[k]|
             && forall j :: 0 <= j < |lists| ==> Ring(mem, j, lists[j]) && Distinct(lists[j])
    ensures var n := Blk(lists[k][i]); n in mem && mem[n].linkb in mem && mem[n].linkf in mem
    ensures var mem', lists' := Unlinked(mem, Blk(lists[k][i])), lists[k := lists[k][..i] + lists[k][i + 1..]];
            && (forall j :: 0 <= j < |lists'| ==> Ring(mem', j, lists'[j]) && Distinct(lists'[j]))
            && (forall p :: p in mem' <==> p in mem)
            && (forall y ::
                  Blk(y) in mem && !(mem[Blk(y)].tag && mem[Blk(y)].kval == k) ==> mem'[Blk(y)] == mem[Blk(y)])
            && (forall y ::
                  Blk(y) in mem ==> mem'[Blk(y)].tag == mem[Blk(y)].tag && mem'[Blk(y)].kval == mem[Blk(y)].kval)
  {
    var s := lists[k];
    UnlinkPath(mem, Head(k), s, Head(k), k, i);
    DistinctAfter(s, i);
    var n := Blk(s[i]);
    var mem' := Unlinked(mem, n);
    assert i > 0 ==> s[i - 1] in s;
    assert i < |s| - 1 ==> s[i + 1] in s;
    if i > 0 { MemberHeader(mem, k, s, s[i - 1]); }
    if i < |s| - 1 { MemberHeader(mem, k, s, s[i + 1]); }
    forall j | 0 <= j < |lists| && j != k ensures Ring(mem', j, lists[j]) {
      RingKept(mem, mem', j, lists[j]);
    }
  }

  /** Block (x, k) leaves its list and counts as in use. */
  lemma TakeOut(z: Arena, k: nat, i: nat)
    requires z.Sound() && k <= z.m && i < |z.lists[k]|
    ensures var n := Blk(z.lists[k][i]); n in z.mem && z.mem[n].linkb in z.mem && z.mem[n].linkf in z.mem
    ensures var x := z.lists[k][i];
            && Block(x, k) in z.FreeSet() && HasSub(z.tree, z.base, z.m, x, k)
            && var z' := z.(mem := Unlinked(z.mem, Blk(x)),
                             lists := z.lists[k := z.lists[k][..i] + z.lists[k][i + 1..]],
                            tree := Put(z.tree, z.base, z.m, x, k, Used));
               && z'.Pending(x, k) && z'.FreeSet() == z.FreeSet() - {Block(x, k)}
               && z'.UsedSet() == z.UsedSet() + {Block(x, k)}
  {
    var x := z.lists[k][i];
    UnlinkLists(z.mem, z.lists, k, i);
    BlockSub(z.tree, z.base, z.m, Block(x, k));
    PutFreeBlocks(z.tree, z.base, z.m, x, k, Used);
    PutUsedBlocks(z.tree, z.base, z.m, x, k, Used);
    PutUsedCoalesced(z.tree, z.base, z.m, x, k, Used);
    DistinctAfter(z.lists[k], i);
    var z' := z.(mem := Unlinked(z.mem, Blk(x)), lists := z.lists[k := z.lists[k][..i] + z.lists[k][i + 1..]],
        tree := Put(z.tree, z.base, z.m, x, k, Used));
    forall y: nat ensures Blk(y) in z'.mem <==> IsStart(z'.tree, z.base, z.m, y) {
      PutStarts(z.tree, z.base, z.m, x, k, Used, y);
    }
    forall b | b in z'.UsedSet() && b.addr != x
      ensures Blk(b.addr) in z'.mem && !z'.mem[Blk(b.addr)].tag && z'.mem[Blk(b.addr)].kval == b.order
    {
      assert b in z.UsedSet();
    }
  }

  /** Rings are there as long as their heads and members are. */
  lemma RingsKept(z: Arena, mem': Mem)
    requires z.Shaped() && z.Linked() && z.Listed()
    requires forall p :: p in z.mem && p.Head? ==> p in mem' && mem'[p] == z.mem[p]
    requires forall b ::
               b in z.FreeSet() ==>
                 Blk(b.addr) in z.mem && Blk(b.addr) in mem' && mem'[Blk(b.addr)] == z.mem[Blk(b.addr)]
    ensures forall k :: 0 <= k <= z.m ==> Ring(mem', k, z.lists[k])
  {
    forall k: nat | k <= z.m ensures Ring(mem', k, z.lists[k]) {
      forall x | x in z.lists[k] ensures Blk(x) in z.mem && Blk(x) in mem' && mem'[Blk(x)] == z.mem[Blk(x)] {
        assert Block(x, k) in z.FreeSet();
      }
      assert Ring(z.mem, k, z.lists[k]);
      PathKept(z.mem, mem', Head(k), z.lists[k], Head(k), k);
    }
  }

  // Splitting.

  /** The header of the upper half, alone in the list of its order. */
  function SplitMem(mem: Mem, y: nat, k: nat): Mem
    requires Head(k) in mem
  {
    mem[Blk(y) := Hdr(true, k, Head(k), Head(k))][Head(k) := mem[Head(k)].(linkf := Blk(y), linkb := Blk(y))]
  }

  /** The arena once the pending block is halved and its upper half put into the list of its order. */
  ghost function Halved(z: Arena, x: nat, k: nat): Arena
    requires z.Pending(x, k + 1) && k < z.m
  {
    assert Ring(z.mem, k, z.lists[k]);
    SplitSets(z, x, k);
    z.(mem := SplitMem(z.mem, x + Pow(k), k), lists := z.lists[k := [x + Pow(k)]],
       tree := Put(z.tree, z.base, z.m, x, k + 1, Node(Used, Free)))
  }

  /** If that list was empty, all is as before with the lower half pending. */
  lemma SplitOff(z: Arena, x: nat, k: nat)
    requires z.Pending(x, k + 1) && k < z.m && z.lists[k] == []
    ensures var z' := Halved(z, x, k);
            && z'.Pending(x, k) && z'.FreeSet() == z.FreeSet() + {Block(x + Pow(k), k)}
            && z'.UsedSet() == z.UsedSet() - {Block(x, k + 1)} + {Block(x, k)}
  {
    HalvedSets(z, x, k);
    SplitRings(z, x, k);
    SplitMarks(z, x, k);
  }

  lemma HalvedSets(z: Arena, x: nat, k: nat)
    requires z.Pending(x, k + 1) && k < z.m && z.lists[k] == []
    ensures var z' := Halved(z, x, k);
            && z'.Shaped() && z'.Listed() && z'.Headed()
            && z'.FreeSet() == z.FreeSet() + {Block(x + Pow(k), k)}
            && z'.UsedSet() == z.UsedSet() - {Block(x, k + 1)} + {Block(x, k)}
  {
    SplitSets(z, x, k);
    SplitListed(z, Halved(z, x, k), x + Pow(k), k);
  }

  lemma SplitSets(z: Arena, x: nat, k: nat)
    requires z.Pending(x, k + 1)
    ensures HasSub(z.tree, z.base, z.m, x, k + 1) && Sub(z.tree, z.base, z.m, x, k + 1) == Used
    ensures var t := Put(z.tree, z.base, z.m, x, k + 1, Node(Used, Free));
            && Fits(t, z.m) && Coalesced(t)
            && FreeBlocks(t, z.base, z.m) == z.FreeSet() + {Block(x + Pow(k), k)}
            && UsedBlocks(t, z.base, z.m) == z.UsedSet() - {Block(x, k + 1)} + {Block(x, k)}
            && forall w :: IsStart(t, z.base, z.m, w) <==> IsStart(z.tree, z.base, z.m, w) || w == x + Pow(k)
  {
    BlockSub(z.tree, z.base, z.m, Block(x, k + 1));
    FreeOrUsed(z, Block(x, k + 1));
    SplitTree(z.tree, z.base, z.m, x, k);
  }

  lemma SplitTree(t: Tree, a: nat, m: nat, x: nat, k: nat)
    requires Fits(t, m) && Coalesced(t) && Multiple(a, m) && HasSub(t, a, m, x, k + 1) && Sub(t, a, m, x, k + 1) == Used
    ensures var t' := Put(t, a, m, x, k + 1, Node(Used, Free));
            && Fits(t', m) && Coalesced(t')
            && FreeBlocks(t', a, m) == FreeBlocks(t, a, m) + {Block(x + Pow(k), k)}
            && UsedBlocks(t', a, m) == UsedBlocks(t, a, m) - {Block(x, k + 1)} + {Block(x, k)}
            && forall w :: IsStart(t', a, m, w) <==> IsStart(t, a, m, w) || w == x + Pow(k)
  {
    var halves := Node(Used, Free);
    assert Fits(Used, k) && Fits(Free, k);
    assert Fits(halves, k + 1);
    var t' := Put(t, a, m, x, k + 1, halves);
    forall w ensures IsStart(t', a, m, w) <==> IsStart(t, a, m, w) || w == x + Pow(k) {
      PutStarts(t, a, m, x, k + 1, halves, w);
    }
    PutFreeBlocks(t, a, m, x, k + 1, halves);
    PutUsedBlocks(t, a, m, x, k + 1, halves);
    PutUsedCoalesced(t, a, m, x, k + 1, halves);
    assert FreeBlocks(halves, x, k + 1) == {Block(x + Pow(k), k)} && UsedBlocks(halves, x, k + 1) == {Block(x, k)};
  }

  lemma FreeOrUsed(z: Arena, b: Block)
    requires z.Shaped() && b in z.UsedSet()
    ensures b !in z.FreeSet()
  {
    if b in z.FreeSet() {
      Disjoint(z.tree, z.base, z.m, b, b, b.addr);
    }
  }

  lemma SplitRings(z: Arena, x: nat, k: nat)
    requires z.Pending(x, k + 1) && k < z.m && z.lists[k] == [] && Head(k) in z.mem
    ensures var mem', lists' := SplitMem(z.mem, x + Pow(k), k), z.lists[k := [x + Pow(k)]];
            forall j :: 0 <= j <= z.m ==> Ring(mem', j, lists'[j]) && Distinct(lists'[j])
  {
    var y := x + Pow(k);
    var mem' := SplitMem(z.mem, y, k);
    NotHeaded(z, x, k);
    var lists' := z.lists[k := [y]];
    assert [y][1..] == [];
    assert Path(mem', Blk(y), [], Head(k), k);
    forall j | 0 <= j <= z.m ensures Ring(mem', j, lists'[j]) && Distinct(lists'[j]) {
      if j != k {
        assert Ring(z.mem, j, z.lists[j]);
        RingKept(z.mem, mem', j, z.lists[j]);
      }
    }
  }

  /** Inside a block there is no header. */
  lemma NotHeaded(z: Arena, x: nat, k: nat)
    requires z.Pending(x, k + 1)
    ensures Blk(x + Pow(k)) !in z.mem
  {
    BlockSub(z.tree, z.base, z.m, Block(x, k + 1));
    FreeOrUsed(z, Block(x, k + 1));
    PutStarts(z.tree, z.base, z.m, x, k + 1, Used, x + Pow(k));
  }

  lemma SplitMarks(z: Arena, x: nat, k: nat)
    requires z.Pending(x, k + 1) && Head(k) in z.mem
    ensures forall b :: b in z.UsedSet() - {Block(x, k + 1)} + {Block(x, k)} && b.addr != x ==>
              var mem' := SplitMem(z.mem, x + Pow(k), k);
              Blk(b.addr) in mem' && !mem'[Blk(b.addr)].tag && mem'[Blk(b.addr)].kval == b.order
  {
    NotHeaded(z, x, k);
  }

  lemma SplitListed(z: Arena, z': Arena, y: nat, k: nat)
    requires && z.Shaped() && z.Listed() && k <= z.m && z.lists[k] == [] && Fits(z'.tree, z.m) && z'.m == z.m
             && z'.base == z.base
    requires z'.lists == z.lists[k := [y]] && z'.FreeSet() == z.FreeSet() + {Block(y, k)}
    ensures z'.Listed()
  {
  }

  /** Done splitting: the header of the block handed out is filled in. */
  lemma MarkUsed(z: Arena, x: nat, k: nat)
    requires z.Pending(x, k)
    ensures Blk(x) in z.mem && z.(mem := z.mem[Blk(x) := z.mem[Blk(x)].(tag := false, kval := k)]).Sound()
  {
    InArena(z.tree, z.base, z.m, Block(x, k));
    var mem' := z.mem[Blk(x) := z.mem[Blk(x)].(tag := false, kval := k)];
    forall b | b in z.FreeSet() ensures Blk(b.addr) in z.mem && b.addr != x {
      FreeHeader(z, b.addr, b.order);
      if b.addr == x {
        OneBlock(z, b, Block(x, k));
      }
    }
    RingsKept(z, mem');
    forall b | b in z.UsedSet()
      ensures Blk(b.addr) in mem' && !mem'[Blk(b.addr)].tag && mem'[Blk(b.addr)].kval == b.order
    {
      if b.addr == x {
        OneBlock(z, b, Block(x, k));
      }
    }
  }

  // Merging.

  /** The other half of a block that is not the whole arena begins with a header, which tells whether it is free as a
      whole. */
  lemma BuddyHeader(z: Arena, x: nat, k: nat)
    requires z.Pending(x, k) && k < z.m
    ensures var y := FlipBit(x, k);
            && Blk(y) in z.mem && y != x && HasSub(z.tree, z.base, z.m, y, k)
            && (z.mem[Blk(y)].tag && z.mem[Blk(y)].kval == k <==> Sub(z.tree, z.base, z.m, y, k).Free?)
            && (Sub(z.tree, z.base, z.m, y, k).Free? ==> Block(y, k) in z.FreeSet())
  {
    var y := FlipBit(x, k);
    PendingSub(z, x, k);
    Parent(z.tree, z.base, z.m, x, k);
    var s := Sub(z.tree, z.base, z.m, y, k);
    var j := FirstBlock(s, y, k);
    SubBlock(z.tree, z.base, z.m, y, k);
    PutStarts(z.tree, z.base, z.m, y, k, s, y);
    if Block(y, j) in FreeBlocks(s, y, k) {
      FreeHeader(z, y, j);
      FreeLeaf(s, y, k, j);
    } else {
      assert Block(y, j) in z.UsedSet();
    }
  }

  lemma PendingSub(z: Arena, x: nat, k: nat)
    requires z.Pending(x, k)
    ensures HasSub(z.tree, z.base, z.m, x, k) && Sub(z.tree, z.base, z.m, x, k) == Used && k <= z.m && Blk(x) in z.mem
  {
    BlockSub(z.tree, z.base, z.m, Block(x, k));
    FreeOrUsed(z, Block(x, k));
    InArena(z.tree, z.base, z.m, Block(x, k));
  }

  lemma FreeLeaf(s: Tree, y: nat, k: nat, j: nat)
    requires Fits(s, k) && Block(y, j) in FreeBlocks(s, y, k) && (j == k <==> !s.Node?)
    ensures s.Free? <==> j == k
  {
  }

  /** The headers once the other half y has left its list and the two have become one block of order k + 1. */
  function MergedMem(mem: Mem, x: nat, y: nat, k: nat): Mem
    requires Blk(x) in mem && Blk(y) in mem && x != y && mem[Blk(y)].linkb in mem && mem[Blk(y)].linkf in mem
  {
    var mem1 := Unlinked(mem, Blk(y));
    var p, q := Least(x, y), x + y - Least(x, y);
    (mem1 - {Blk(q)})[Blk(p) := mem1[Blk(p)].(kval := k + 1)]
  }

  lemma MergeTree(t: Tree, a: nat, m: nat, x: nat, k: nat)
    requires && Fits(t, m) && Coalesced(t) && Multiple(a, m) && HasSub(t, a, m, x, k) && k < m
             && Sub(t, a, m, x, k) == Used
    requires HasSub(t, a, m, FlipBit(x, k), k) && Sub(t, a, m, FlipBit(x, k), k) == Free
    ensures var y := FlipBit(x, k); var p := Least(x, y);
            && HasSub(t, a, m, p, k + 1) && (y == x + Pow(k) || x == y + Pow(k))
            && var t' := Put(t, a, m, p, k + 1, Used);
               && Fits(t', m) && Coalesced(t')
               && FreeBlocks(t', a, m) == FreeBlocks(t, a, m) - {Block(y, k)}
               && UsedBlocks(t', a, m) == UsedBlocks(t, a, m) - {Block(x, k)} + {Block(p, k + 1)}
               && forall w :: IsStart(t', a, m, w) <==> IsStart(t, a, m, w) && w != x + y - p
  {
    var y := FlipBit(x, k);
    var p := Least(x, y);
    Parent(t, a, m, x, k);
    var o, t' := Sub(t, a, m, p, k + 1), Put(t, a, m, p, k + 1, Used);
    PutFreeBlocks(t, a, m, p, k + 1, Used);
    PutUsedBlocks(t, a, m, p, k + 1, Used);
    PutUsedCoalesced(t, a, m, p, k + 1, Used);
    assert FreeBlocks(o, p, k + 1) == {Block(y, k)} && UsedBlocks(o, p, k + 1) == {Block(x, k)};
    forall w ensures IsStart(t', a, m, w) <==> IsStart(t, a, m, w) && w != x + y - p {
      PutStarts(t, a, m, p, k + 1, Used, w);
      HalvesStart(o, p, k + 1, w);
    }
  }

  /** A block of two halves that are not split has headers at the start of each. */
  lemma HalvesStart(o: Tree, p: nat, k: nat, w: nat)
    requires Fits(o, k) && o.Node? && !o.left.Node? && !o.right.Node?
    ensures k > 0 && (IsStart(o, p, k, w) <==> w == p || w == p + Pow(k - 1))
  {
  }

  /** The arena once the pending block x of order k and its other half y, number i in its list, have become one. */
  ghost function Merged(z: Arena, x: nat, k: nat, i: nat): Arena
    requires z.Pending(x, k) && k < z.m && i < |z.lists[k]| && z.lists[k][i] == FlipBit(x, k)
  {
    MergeReady(z, x, k, i);
    var y := FlipBit(x, k);
    z.(mem := MergedMem(z.mem, x, y, k), lists := z.lists[k := z.lists[k][..i] + z.lists[k][i + 1..]],
       tree := Put(z.tree, z.base, z.m, Least(x, y), k + 1, Used))
  }

  lemma MergeUp(z: Arena, x: nat, k: nat, i: nat)
    requires z.Pending(x, k) && k < z.m && i < |z.lists[k]| && z.lists[k][i] == FlipBit(x, k)
    ensures var y := FlipBit(x, k); var p, z' := Least(x, y), Merged(z, x, k, i);
            && z'.Pending(p, k + 1) && z'.FreeSet() == z.FreeSet() - {Block(y, k)}
            && z'.UsedSet() == z.UsedSet() - {Block(x, k)} + {Block(p, k + 1)}
  {
    MergedSets(z, x, k, i);
    MergedLinked(z, x, k, i);
    MergedMarked(z, x, k, i);
  }

  lemma MergedSets(z: Arena, x: nat, k: nat, i: nat)
    requires z.Pending(x, k) && k < z.m && i < |z.lists[k]| && z.lists[k][i] == FlipBit(x, k)
    ensures var y := FlipBit(x, k); var p, z' := Least(x, y), Merged(z, x, k, i);
            && z'.Shaped() && z'.Listed() && z'.Headed()
            && z'.FreeSet() == z.FreeSet() - {Block(y, k)}
            && z'.UsedSet() == z.UsedSet() - {Block(x, k)} + {Block(p, k + 1)}
  {
    MergeReady(z, x, k, i);
    MergeListed(z, Merged(z, x, k, i), FlipBit(x, k), k, i);
  }

  lemma MergedLinked(z: Arena, x: nat, k: nat, i: nat)
    requires z.Pending(x, k) && k < z.m && i < |z.lists[k]| && z.lists[k][i] == FlipBit(x, k)
    ensures Merged(z, x, k, i).Linked()
  {
    var y, z' := FlipBit(x, k), Merged(z, x, k, i);
    MergeReady(z, x, k, i);
    MergedSets(z, x, k, i);
    var z1 := z.(mem := Unlinked(z.mem, Blk(y)), lists := z'.lists);
    forall b | b in z'.FreeSet() ensures b.addr != x && b.addr != y {
      if b.addr == x { OneBlock(z, b, Block(x, k)); }
      if b.addr == y { OneBlock(z, b, Block(y, k)); }
    }
    MergeRings(z1, z', x, y);
  }

  lemma MergedMarked(z: Arena, x: nat, k: nat, i: nat)
    requires z.Pending(x, k) && k < z.m && i < |z.lists[k]| && z.lists[k][i] == FlipBit(x, k)
    ensures Merged(z, x, k, i).Marked({Least(x, FlipBit(x, k))})
  {
    MergeReady(z, x, k, i);
    MergedSets(z, x, k, i);
    MergeMarks(z, Merged(z, x, k, i), x, FlipBit(x, k), k);
  }

  lemma MergeReady(z: Arena, x: nat, k: nat, i: nat)
    requires z.Pending(x, k) && k < z.m && i < |z.lists[k]| && z.lists[k][i] == FlipBit(x, k)
    ensures var y := FlipBit(x, k);
            && Blk(x) in z.mem && Blk(y) in z.mem && x != y && z.mem[Blk(y)].linkb in z.mem
            && z.mem[Blk(y)].linkf in z.mem
            && Block(y, k) in z.FreeSet()
            && (var z1 := z.(mem := Unlinked(z.mem, Blk(y)),
                              lists := z.lists[k := z.lists[k][..i] + z.lists[k][i + 1..]]);
                && z1.Linked()
                && (forall p :: p in z1.mem <==> p in z.mem)
                && (forall w :: Blk(w) in z.mem && !z.mem[Blk(w)].tag ==> z1.mem[Blk(w)] == z.mem[Blk(w)]))
            && var p := Least(x, y);
               && HasSub(z.tree, z.base, z.m, p, k + 1)
               && var t := Put(z.tree, z.base, z.m, p, k + 1, Used);
                  && Fits(t, z.m) && Coalesced(t)
                  && FreeBlocks(t, z.base, z.m) == z.FreeSet() - {Block(y, k)}
                  && UsedBlocks(t, z.base, z.m) == z.UsedSet() - {Block(x, k)} + {Block(p, k + 1)}
                  && forall w :: IsStart(t, z.base, z.m, w) <==> IsStart(z.tree, z.base, z.m, w) && w != x + y - p
  {
    BuddyHeader(z, x, k);
    PendingSub(z, x, k);
    FreeHeader(z, FlipBit(x, k), k);
    UnlinkLists(z.mem, z.lists, k, i);
    MergeTree(z.tree, z.base, z.m, x, k);
  }

  lemma MergeListed(z: Arena, z': Arena, y: nat, k: nat, i: nat)
    requires && z.Shaped() && z.Linked() && z.Listed() && k <= z.m && i < |z.lists[k]| && z.lists[k][i] == y
             && Fits(z'.tree, z.m) && z'.m == z.m
    requires && z'.base == z.base && z'.lists == z.lists[k := z.lists[k][..i] + z.lists[k][i + 1..]]
             && z'.FreeSet() == z.FreeSet() - {Block(y, k)}
    ensures z'.Listed()
  {
    DistinctAfter(z.lists[k], i);
  }

  lemma MergeRings(z1: Arena, z': Arena, x: nat, y: nat)
    requires z1.Linked() && z'.Shaped() && z'.Listed() && z'.lists == z1.lists && z'.m == z1.m
    requires forall p :: p in z1.mem && p != Blk(x) && p != Blk(y) ==> p in z'.mem && z'.mem[p] == z1.mem[p]
    requires forall b :: b in z'.FreeSet() ==> b.addr != x && b.addr != y
    ensures z'.Linked()
  {
    forall k: nat | k <= z'.m ensures Ring(z'.mem, k, z'.lists[k]) && Distinct(z'.lists[k]) {
      assert Ring(z1.mem, k, z1.lists[k]);
      forall w | w in z1.lists[k] ensures Blk(w) in z1.mem && Blk(w) in z'.mem && z'.mem[Blk(w)] == z1.mem[Blk(w)] {
        assert Block(w, k) in z'.FreeSet();
        MemberHeader(z1.mem, k, z1.lists[k], w);
      }
      PathKept(z1.mem, z'.mem, Head(k), z'.lists[k], Head(k), k);
    }
  }

  lemma MergeMarks(z: Arena, z': Arena, x: nat, y: nat, k: nat)
    requires z.Pending(x, k) && Fits(z'.tree, z'.m) && Block(y, k) in z.FreeSet()
    requires z'.UsedSet() == z.UsedSet() - {Block(x, k)} + {Block(Least(x, y), k + 1)}
    requires forall w ::
               Blk(w) in z.mem && w != x && w != y && !z.mem[Blk(w)].tag ==>
                 Blk(w) in z'.mem && z'.mem[Blk(w)] == z.mem[Blk(w)]
    ensures z'.Marked({Least(x, y)})
  {
    forall b | b in z'.UsedSet() && b.addr != Least(x, y)
      ensures Blk(b.addr) in z'.mem && !z'.mem[Blk(b.addr)].tag && z'.mem[Blk(b.addr)].kval == b.order
    {
      if b.addr == x {
        OneBlock(z, b, Block(x, k));
      }
      if b.addr == y {
        OneBlock(z, b, Block(y, k));
      }
    }
  }

  // Putting a block back.

  /** Merged as far as it goes: the block enters the list of its order. */
  lemma Release(z: Arena, x: nat, k: nat)
    requires z.Pending(x, k) && Blk(x) in z.mem && z.mem[Blk(x)].kval == k
    requires k < z.m ==>
               Blk(FlipBit(x, k)) in z.mem && !(z.mem[Blk(FlipBit(x, k))].tag && z.mem[Blk(FlipBit(x, k))].kval == k)
    ensures k <= z.m && Head(k) in z.mem && z.mem[Head(k)].linkf in z.mem && HasSub(z.tree, z.base, z.m, x, k)
    ensures var z' := z.(mem := Pushed(z.mem, k, x), lists := z.lists[k := [x] + z.lists[k]],
                    tree := Put(z.tree, z.base, z.m, x, k, Free));
            z'.Sound() && z'.FreeSet() == z.FreeSet() + {Block(x, k)} && z'.UsedSet() == z.UsedSet() - {Block(x, k)}
  {
    PendingSub(z, x, k);
    if k < z.m {
      BuddyHeader(z, x, k);
    }
    ReleaseTree(z.tree, z.base, z.m, x, k);
    assert Ring(z.mem, k, z.lists[k]);
    NotListed(z, x, k);
    PushRing(z.mem, k, z.lists[k], x);
    var z' := z.(mem := Pushed(z.mem, k, x), lists := z.lists[k := [x] + z.lists[k]], tree := Put(z.tree, z.base, z.m,
        x, k, Free));
    ReleaseRings(z, x, k);
    ReleaseMarks(z, z', x, k);
  }

  lemma NotListed(z: Arena, x: nat, k: nat)
    requires z.Pending(x, k)
    ensures forall j: nat :: j <= z.m ==> x !in z.lists[j]
  {
    forall j: nat | j <= z.m ensures x !in z.lists[j] {
      if x in z.lists[j] {
        OneBlock(z, Block(x, j), Block(x, k));
      }
    }
  }

  lemma ReleaseTree(t: Tree, a: nat, m: nat, x: nat, k: nat)
    requires Fits(t, m) && Coalesced(t) && Multiple(a, m) && HasSub(t, a, m, x, k) && Sub(t, a, m, x, k) == Used
    requires k < m ==> HasSub(t, a, m, FlipBit(x, k), k) && !Sub(t, a, m, FlipBit(x, k), k).Free?
    ensures var t' := Put(t, a, m, x, k, Free);
            && Fits(t', m) && Coalesced(t')
            && FreeBlocks(t', a, m) == FreeBlocks(t, a, m) + {Block(x, k)}
            && UsedBlocks(t', a, m) == UsedBlocks(t, a, m) - {Block(x, k)}
            && forall w :: IsStart(t', a, m, w) <==> IsStart(t, a, m, w)
  {
    PutFreeBlocks(t, a, m, x, k, Free);
    PutUsedBlocks(t, a, m, x, k, Free);
    PutFreeCoalesced(t, a, m, x, k);
    forall w ensures IsStart(Put(t, a, m, x, k, Free), a, m, w) <==> IsStart(t, a, m, w) {
      PutStarts(t, a, m, x, k, Free, w);
    }
  }

  lemma ReleaseRings(z: Arena, x: nat, k: nat)
    requires && z.Pending(x, k) && k <= z.m && Blk(x) in z.mem && z.mem[Blk(x)].kval == k && Head(k) in z.mem
             && z.mem[Head(k)].linkf in z.mem
    ensures var mem', lists' := Pushed(z.mem, k, x), z.lists[k := [x] + z.lists[k]];
            forall j :: 0 <= j <= z.m ==> Ring(mem', j, lists'[j]) && Distinct(lists'[j])
  {
    NotListed(z, x, k);
    assert Ring(z.mem, k, z.lists[k]);
    PushRing(z.mem, k, z.lists[k], x);
    var mem', lists' := Pushed(z.mem, k, x), z.lists[k := [x] + z.lists[k]];
    if z.lists[k] != [] {
      assert z.lists[k][0] in z.lists[k];
      MemberHeader(z.mem, k, z.lists[k], z.lists[k][0]);
    }
    forall j | 0 <= j <= z.m ensures Ring(mem', j, lists'[j]) && Distinct(lists'[j]) {
      assert Ring(z.mem, j, z.lists[j]);
      if j != k {
        RingKept(z.mem, mem', j, z.lists[j]);
      } else {
        assert lists'[k][1..] == z.lists[k];
      }
    }
  }

  lemma ReleaseMarks(z: Arena, z': Arena, x: nat, k: nat)
    requires z.Pending(x, k) && k <= z.m && Blk(x) in z.mem && Head(k) in z.mem && z.mem[Head(k)].linkf in z.mem
    requires z'.mem == Pushed(z.mem, k, x) && Fits(z'.tree, z'.m) && z'.UsedSet() == z.UsedSet() - {Block(x, k)}
    requires z.mem[Head(k)].linkf == if z.lists[k] == [] then Head(k) else Blk(z.lists[k][0])
    ensures z'.Marked({})
  {
    if z.lists[k] != [] {
      assert z.lists[k][0] in z.lists[k] && Ring(z.mem, k, z.lists[k]);
      MemberHeader(z.mem, k, z.lists[k], z.lists[k][0]);
    }
    forall b | b in z'.UsedSet()
      ensures Blk(b.addr) in z'.mem && !z'.mem[Blk(b.addr)].tag && z'.mem[Blk(b.addr)].kval == b.order
    {
      if b.addr == x {
        OneBlock(z, b, Block(x, k));
      }
    }
  }

  /** Pending, with a countdown that only keeps proofs from looking inside where WaitingIs is not called. */
  ghost predicate Waiting(z: Arena, x: nat, k: nat) {
    WaitingAfter(z, x, k, |z.lists|)
  }

  ghost predicate WaitingAfter(z: Arena, x: nat, k: nat, countdown: nat) {
    if countdown > 0 then WaitingAfter(z, x, k, countdown - 1) else z.Pending(x, k)
  }

  lemma {:induction false} WaitingAfterIs(z: Arena, x: nat, k: nat, countdown: nat)
    ensures WaitingAfter(z, x, k, countdown) <==> z.Pending(x, k)
  {
    if countdown > 0 {
      WaitingAfterIs(z, x, k, countdown - 1);
    }
  }

  lemma WaitingIs(z: Arena, x: nat, k: nat)
    ensures Waiting(z, x, k) <==> z.Pending(x, k)
  {
    WaitingAfterIs(z, x, k, |z.lists|);
  }
}
