/** The buddy allocator. */
module Buddy {
  import opened BuddyMath
  import opened BuddyTree
  import opened BuddyRing
  import opened BuddyArena

  const HEADER_SIZE := 18  // of the packed block header
  const MAX_ORDERS := 48

  /** The upper halves left over when a block of order j at x is halved down to order k. */
  ghost function Leftovers(x: nat, k: nat, j: nat): set<Block>
    decreases j
  {
    if j <= k then {} else Leftovers(x, k, j - 1) + {Block(x + Pow(j - 1), j - 1)}
  }

  class Allocator {
    const base: nat
    const size: nat
    const maxOrder: nat
    var mem: Mem  // the headers: the avail array and those in the arena
    ghost var lists: seq<seq<nat>>
    ghost var tree: Tree

    ghost function State(): Arena
      reads this
    {
      Arena(base, maxOrder, mem, lists, tree)
    }

    ghost predicate Valid()
      reads this
    {
      State().Sound() && maxOrder < MAX_ORDERS && size == Pow(maxOrder)
    }

    ghost function Free(): set<Block>
      requires Fits(tree, maxOrder)
      reads this
    {
      State().FreeSet()
    }

    ghost function Used(): set<Block>
      requires Fits(tree, maxOrder)
      reads this
    {
      State().UsedSet()
    }

    /** Each header fits the block it is in. */
    ghost predicate Roomy()
      requires Fits(tree, maxOrder)
      reads this
    {
      HEADER_SIZE <= Pow(maxOrder) && forall b :: b in Used() ==> HEADER_SIZE <= Pow(b.order)
    }

    /** That goes for the free blocks, too. */
    lemma HeadersFit(b: Block)
      requires Valid() && Roomy() && b in Free()
      ensures HEADER_SIZE <= Pow(b.order)
    {
      HeaderNeeds(maxOrder);
      HeaderNeeds(b.order);
      forall c | c in Used() ensures 5 <= c.order {
        HeaderNeeds(c.order);
      }
      FreeCoarse(tree, base, maxOrder, 5, b);
    }

    /** The whole arena is one available block. The header asks for a size that is a power of two and a base aligned
        to it. */
    constructor (base: nat, size: nat, ghost m: nat)
      requires size == Pow(m) && m < MAX_ORDERS && Multiple(base, m)
      ensures Valid() && this.base == base && maxOrder == m && Used() == {} && Free() == {Block(base, m)}
      ensures Roomy() <==> m >= 5
    {
      HeaderNeeds(m);
      var order := FindOrder(size);
      PowUnique(order, m);
      PowWord(m);
      var aligned, n := AlignToPowerOfTwo(size);
      LeastPowIs(m, n);
      var avail: Mem := map[];
      var i := 0;
      while i <= order
        invariant i <= order + 1
        invariant forall k: nat :: Head(k) in avail <==> k < i
        invariant forall k: nat :: k < i ==> avail[Head(k)].linkf == avail[Head(k)].linkb == Head(k)
        invariant forall y :: Blk(y) !in avail
      {
        avail := avail[Head(i) := Hdr(false, 0, Head(i), Head(i))];
        i := i + 1;
      }
      this.base, this.size, this.maxOrder := base, aligned, order;
      mem := avail[Head(order) := avail[Head(order)].(linkf := Blk(base), linkb := Blk(base))][Blk(base) := Hdr(true,
          order, Head(order), Head(order))];
      lists := seq(order + 1, k => if k == order then [base] else []);
      tree := Tree.Free;
      new;
      FirstArena(State(), avail);
    }

    /** The order of the least power of two that holds `bytes`, 0 where there is none. */
    method OrderFor(bytes: nat) returns (order: nat)
      requires bytes < WORD
      ensures 0 < bytes <= HALF ==> IsLeastPow(bytes, order)
      ensures bytes == 0 || bytes > HALF ==> order == 0
    {
      var aligned, n := AlignToPowerOfTwo(bytes);
      order := FindOrder(aligned);
      if 0 < bytes <= HALF {
        PowUnique(order, n);
      }
    }

    /** The least order from `from` on with a free block, maxOrder + 1 if there is none. */
    method FindList(from: nat) returns (j: nat)
      requires Valid()
      ensures from <= j && (j > maxOrder || lists[j] != [])
      ensures forall b :: b in Free() && from <= b.order ==> j <= b.order
      ensures forall i :: from <= i < j && i <= maxOrder ==> lists[i] == []
    {
      j := from;
      while j <= maxOrder
        invariant from <= j
        invariant forall i :: from <= i < j && i <= maxOrder ==> lists[i] == []
        decreases maxOrder + 1 - j
      {
        assert Ring(mem, j, lists[j]);
        if mem[Head(j)].linkf != Head(j) {
          break;
        }
        j := j + 1;
      }
      forall b | b in Free() && from <= b.order ensures j <= b.order {
        FreeHeader(State(), b.addr, b.order);
        assert b.addr in lists[b.order];
      }
    }

    /** Takes the first block of list j out. */
    method TakeFirst(j: nat) returns (x: nat)
      requires Valid() && j <= maxOrder && lists[j] != []
      modifies this
      ensures State().Pending(x, j) && Block(x, j) in old(Free())
      ensures Free() == old(Free()) - {Block(x, j)} && Used() == old(Used()) + {Block(x, j)}
      ensures forall i :: 0 <= i <= maxOrder && i != j ==> lists[i] == old(lists[i])
    {
      assert Ring(mem, j, lists[j]);
      TakeOut(State(), j, 0);
      x := mem[Head(j)].linkf.addr;
      mem := Unlinked(mem, Blk(x));
      tree := Put(tree, base, maxOrder, x, j, Tree.Used);
      lists := lists[j := lists[j][..0] + lists[j][1..]];
    }

    /** Halves the pending block at x, of order k + 1. */
    method Halve(x: nat, k: nat)
      requires State().Pending(x, k + 1) && k < maxOrder && lists[k] == []
      modifies this
      ensures State().Pending(x, k)
      ensures && Free() == old(Free()) + {Block(x + Pow(k), k)}
              && Used() == old(Used()) - {Block(x, k + 1)} + {Block(x, k)}
      ensures lists == old(lists)[k := [x + Pow(k)]]
    {
      SplitOff(State(), x, k);
      SplitSets(State(), x, k);
      assert Ring(mem, k, lists[k]);
      mem, lists, tree := SplitMem(mem, x + Pow(k), k), lists[k := [x + Pow(k)]], Put(tree, base, maxOrder, x, k + 1,
          Node(Tree.Used, Tree.Free));
    }

    method SplitStep(x: nat, k: nat)
      requires && Waiting(State(), x, k + 1) && k < maxOrder && |lists| == maxOrder + 1 && lists[k] == []
               && Fits(tree, maxOrder)
      modifies this
      ensures Waiting(State(), x, k) && Fits(tree, maxOrder)
      ensures && Free() == old(Free()) + {Block(x + Pow(k), k)}
              && Used() == old(Used()) - {Block(x, k + 1)} + {Block(x, k)}
      ensures lists == old(lists)[k := [x + Pow(k)]]
    {
      WaitingIs(State(), x, k + 1);
      Halve(x, k);
      WaitingIs(State(), x, k);
    }

    /** Halves the pending block at x down to order k. Every list in between is empty, so no block is lost. */
    method SplitDown(x: nat, from: nat, k: nat)
      requires Waiting(State(), x, from) && k <= from <= maxOrder && |lists| == maxOrder + 1 && Fits(tree, maxOrder)
      requires forall i :: k <= i < from ==> lists[i] == []
      requires Block(x, from) in Used() && forall i :: Block(x, i) in Used() ==> i == from
      modifies this
      ensures Waiting(State(), x, k) && Fits(tree, maxOrder)
      ensures Free() == old(Free()) + Leftovers(x, k, from) && Used() == old(Used()) - {Block(x, from)} + {Block(x, k)}
    {
      var j := from;
      ghost var all, u := Free() + Leftovers(x, k, from), Used();
      while j > k
        invariant k <= j <= from && Waiting(State(), x, j) && |lists| == maxOrder + 1 && Fits(tree, maxOrder)
        invariant forall i :: k <= i < j ==> lists[i] == []
        invariant Free() + Leftovers(x, k, j) == all
        invariant Used() == u - {Block(x, from)} + {Block(x, j)}
        decreases j
      {
        j := j - 1;
        ghost var f, u' := Free(), Used();
        SplitStep(x, j);
        Replaced(u, u', Used(), Block(x, from), Block(x, j + 1), Block(x, j));
        LeftOver(all, f, Free(), x, k, j);
      }
    }

    /** Takes a block of order j out and hands out its first 2^k bytes. */
    method Carve(j: nat, k: nat) returns (x: nat)
      requires Valid() && k <= j <= maxOrder && lists[j] != [] && forall i :: k <= i < j ==> lists[i] == []
      modifies this
      ensures Valid() && Block(x, j) in old(Free()) && Block(x, k) !in old(Used())
      ensures Used() == old(Used()) + {Block(x, k)} && Free() == old(Free()) - {Block(x, j)} + Leftovers(x, k, j)
    {
      ghost var z := State();
      x := TakeFirst(j);
      NewInUse(z, x, j, k);
      NewInUse(z, x, j, j);
      forall i | Block(x, i) in Used() ensures i == j {
        NewInUse(z, x, j, i);
      }
      WaitingIs(State(), x, j);
      SplitDown(x, j, k);
      WaitingIs(State(), x, k);
      MarkUsed(State(), x, k);
      mem := mem[Blk(x) := mem[Blk(x)].(tag := false, kval := k)];
    }

    /** allocate: the address behind the header of a block in use of the least order that holds the bytes and the
        header, 0 if no free block is large enough. The block comes out of one of order j, the smallest there is. The
        block does hold what was asked for exactly if that and the header come to no more than 2^63; beyond that the
        order wraps around. */
    method Allocate(bytes: nat) returns (addr: nat, ghost b: Block, ghost j: nat)
      requires Valid() && bytes < WORD
      modifies this
      ensures Valid() && (bytes + HEADER_SIZE <= HALF <==> IsLeastPow(bytes + HEADER_SIZE, b.order))
      ensures bytes + HEADER_SIZE > HALF ==> b.order <= 5
      ensures bytes + HEADER_SIZE <= HALF && old(Roomy()) ==> Roomy()
      ensures forall c :: c in old(Free()) && c.order >= b.order ==> c.order >= j
      ensures if j > maxOrder then addr == 0 && State() == old(State())
                      && forall c :: c in old(Free()) ==> c.order < b.order
              else && addr == b.addr + HEADER_SIZE && b !in old(Used()) && Used() == old(Used()) + {b}
                   && b.order <= j && Block(b.addr, j) in old(Free())
                   && Free() == old(Free()) - {Block(b.addr, j)} + Leftovers(b.addr, b.order, j)
    {
      var k := OrderFor(Add64(bytes, HEADER_SIZE));
      OrderIs(bytes, k);
      var i := FindList(k);
      b, j, addr := Block(0, k), i, 0;
      if i > maxOrder {
        forall c | c in Free() ensures c.order < k {
          FreeHeader(State(), c.addr, c.order);
        }
      } else {
        var x := Carve(i, k);
        b := Block(x, k);
        addr := x + HEADER_SIZE;
      }
    }

    /** The header of the other half of block x, which is a header indeed, tells that it is free as a whole. */
    method CanMerge(x: nat, ghost k: nat) returns (yes: bool)
      requires && Waiting(State(), x, k) && Blk(x) in mem && mem[Blk(x)].kval == k && Fits(tree, maxOrder)
               && |lists| == maxOrder + 1
      ensures k <= maxOrder && (k == maxOrder ==> !yes)
      ensures k < maxOrder ==>
                && Blk(FlipBit(x, k)) in mem
                && (yes <==> mem[Blk(FlipBit(x, k))].tag && mem[Blk(FlipBit(x, k))].kval == k)
      ensures yes ==> FlipBit(x, k) in lists[k] && Block(FlipBit(x, k), k) in Free()
    {
      WaitingIs(State(), x, k);
      PendingSub(State(), x, k);
      yes := false;
      if mem[Blk(x)].kval != maxOrder {
        BuddyHeader(State(), x, k);
        var buddy := FlipBit(x, mem[Blk(x)].kval);
        yes := mem[Blk(buddy)].tag && mem[Blk(buddy)].kval == mem[Blk(x)].kval;
      }
    }

    /** Merges the pending block x with its other half. The header of the upper one is no header any more. */
    method Join(x: nat, k: nat) returns (p: nat)
      requires && State().Pending(x, k) && k < maxOrder && FlipBit(x, k) in lists[k] && Blk(x) in mem
               && mem[Blk(x)].kval == k
      modifies this
      ensures State().Pending(p, k + 1) && Blk(p) in mem && mem[Blk(p)].kval == k + 1 && p == Least(x, FlipBit(x, k))
      ensures Used() == old(Used()) - {Block(x, k)} + {Block(p, k + 1)}
    {
      var y := FlipBit(x, k);
      ghost var i :| 0 <= i < |lists[k]| && lists[k][i] == y;
      MergeUp(State(), x, k, i);
      MergeReady(State(), x, k, i);
      p := Least(x, y);
      ghost var z := Merged(State(), x, k, i);
      mem := MergedMem(mem, x, y, k);
      lists, tree := z.lists, z.tree;
    }

    method MergeStep(x: nat, k: nat) returns (p: nat)
      requires && Waiting(State(), x, k) && k < maxOrder && |lists| == maxOrder + 1 && FlipBit(x, k) in lists[k]
               && Blk(x) in mem && mem[Blk(x)].kval == k
      requires Fits(tree, maxOrder)
      modifies this
      ensures && Waiting(State(), p, k + 1) && Blk(p) in mem && mem[Blk(p)].kval == k + 1 && Fits(tree, maxOrder)
              && |lists| == maxOrder + 1
      ensures Used() == old(Used()) - {Block(x, k)} + {Block(p, k + 1)}
      ensures Block(x, k) in old(Used()) && Block(p, k + 1) !in old(Used())
    {
      WaitingIs(State(), x, k);
      FreshBlock(State(), x, k);
      p := Join(x, k);
      WaitingIs(State(), p, k + 1);
    }

    /** Merges the pending block as far as it goes. */
    method MergeAll(x0: nat, k0: nat) returns (x: nat, k: nat)
      requires && Waiting(State(), x0, k0) && Blk(x0) in mem && mem[Blk(x0)].kval == k0 && Fits(tree, maxOrder)
               && |lists| == maxOrder + 1
      requires Block(x0, k0) in Used()
      modifies this
      ensures && Waiting(State(), x, k) && Blk(x) in mem && mem[Blk(x)].kval == k && Fits(tree, maxOrder)
              && |lists| == maxOrder + 1
      ensures Used() == old(Used()) - {Block(x0, k0)} + {Block(x, k)}
      ensures Block(x, k) in old(Used()) ==> Block(x, k) == Block(x0, k0)
      ensures k < maxOrder ==>
                Blk(FlipBit(x, k)) in mem && !(mem[Blk(FlipBit(x, k))].tag && mem[Blk(FlipBit(x, k))].kval == k)
    {
      x, k := x0, k0;
      var more := CanMerge(x, k);
      ghost var rest := Used() - {Block(x, k)};
      while more
        invariant && Waiting(State(), x, k) && Blk(x) in mem && mem[Blk(x)].kval == k && Fits(tree, maxOrder)
                  && |lists| == maxOrder + 1
        invariant k <= maxOrder && (more ==> k < maxOrder && FlipBit(x, k) in lists[k])
        invariant Used() == rest + {Block(x, k)} && Block(x, k) !in rest
        invariant !more && k < maxOrder ==>
                    Blk(FlipBit(x, k)) in mem && !(mem[Blk(FlipBit(x, k))].tag && mem[Blk(FlipBit(x, k))].kval == k)
        decreases maxOrder - k, more
      {
        var p := MergeStep(x, k);
        x, k := p, k + 1;
        more := CanMerge(x, k);
      }
    }

    /** Puts the pending block x into the list of its order. */
    method PutBack(x: nat, k: nat)
      requires State().Pending(x, k) && Blk(x) in mem && mem[Blk(x)].kval == k
      requires k < maxOrder ==>
                 Blk(FlipBit(x, k)) in mem && !(mem[Blk(FlipBit(x, k))].tag && mem[Blk(FlipBit(x, k))].kval == k)
      modifies this
      ensures State().Sound() && Used() == old(Used()) - {Block(x, k)}
    {
      Release(State(), x, k);
      mem, lists, tree := Pushed(mem, k, x), lists[k := [x] + lists[k]], Put(tree, base, maxOrder, x, k, Tree.Free);
    }

    /** deallocate: the block whose payload begins at addr is no longer in use, and every block that can be merged is.
        Addresses outside the arena and blocks that are free already are left alone. An address inside must be one
        that has a header before it. */
    method Deallocate(addr: nat)
      requires Valid() && addr < 0x1_0000_0000_0000_0000
      requires var x := HeaderOf(addr); base <= x <= base + size ==> Blk(x) in mem
      modifies this
      ensures Valid()
      ensures forall b :: b in old(Used()) && b.addr == HeaderOf(addr) ==> Used() == old(Used()) - {b}
      ensures (forall b :: b in old(Used()) ==> b.addr != HeaderOf(addr)) ==> State() == old(State())
      ensures old(Roomy()) ==> Roomy()
    {
      var x := HeaderOf(addr);
      ghost var z := State();
      if x < base || x > base + size {
        NotInUse(z, x);
        return;
      }
      if mem[Blk(x)].tag {
        return;
      }
      ghost var b := InUse(z, x);
      PendingBlock(z, b);
      WaitingIs(z, x, b.order);
      var p, k := MergeAll(x, mem[Blk(x)].kval);
      WaitingIs(State(), p, k);
      PutBack(p, k);
      forall c | c in old(Used()) && c.addr == x ensures c == b {
        OneBlock(z, b, c);
      }
    }
  }

  /** A header takes a block of 32 bytes at least. */
  lemma HeaderNeeds(k: nat)
    ensures HEADER_SIZE <= Pow(k) <==> k >= 5
  {
    assert Pow(4) == 16 && Pow(5) == 32;
    if k >= 5 {
      PowMono(5, k);
    } else {
      PowMono(k, 4);
    }
  }

  /** What the order computed for a request is. */
  lemma OrderIs(bytes: nat, k: nat)
    requires bytes < WORD
    requires var n := Add64(bytes, HEADER_SIZE); if 0 < n <= HALF then IsLeastPow(n, k) else k == 0
    ensures bytes + HEADER_SIZE <= HALF <==> IsLeastPow(bytes + HEADER_SIZE, k)
    ensures bytes + HEADER_SIZE <= HALF ==> HEADER_SIZE <= Pow(k)
    ensures bytes + HEADER_SIZE > HALF ==> k <= 5
  {
    assert Pow(5) == 32;
    if bytes + HEADER_SIZE > HALF {
      if k > 5 {
        PowMono(5, k - 1);
      } else {
        PowMono(k, 5);
      }
    }
  }

  /** The address of the header, by the source's unsigned subtraction. */
  function HeaderOf(addr: nat): nat {
    (addr - HEADER_SIZE) % 0x1_0000_0000_0000_0000
  }

  /** Blocks in use lie in the arena. */
  lemma NotInUse(z: Arena, x: nat)
    requires z.Sound() && (x < z.base || x > z.base + Pow(z.m))
    ensures forall b :: b in z.UsedSet() ==> b.addr != x
  {
    forall b | b in z.UsedSet() ensures b.addr != x {
      InArena(z.tree, z.base, z.m, b);
    }
  }

  /** A header that does not say "available" is that of a block in use. */
  lemma InUse(z: Arena, x: nat) returns (b: Block)
    requires z.Sound() && Blk(x) in z.mem && !z.mem[Blk(x)].tag
    ensures b in z.UsedSet() && b.addr == x && z.mem[Blk(x)].kval == b.order
  {
    b := StartBlock(z.tree, z.base, z.m, x);
    if b in z.FreeSet() {
      FreeHeader(z, b.addr, b.order);
    }
  }

  /** A block begins at every start. */
  lemma {:induction false} StartBlock(t: Tree, a: nat, m: nat, y: nat) returns (b: Block)
    requires Fits(t, m) && IsStart(t, a, m, y)
    ensures b in Blocks(t, a, m) && b.addr == y
    decreases t
  {
    b := Block(a, m);
    if t.Node? {
      if y < a + Pow(m - 1) {
        b := StartBlock(t.left, a, m - 1, y);
      } else {
        b := StartBlock(t.right, a + Pow(m - 1), m - 1, y);
      }
    }
  }

  lemma PendingBlock(z: Arena, b: Block)
    requires z.Sound() && b in z.UsedSet()
    ensures z.Pending(b.addr, b.order)
  {
  }

  lemma FreshBlock(z: Arena, x: nat, k: nat)
    requires z.Pending(x, k) && k < z.m && FlipBit(x, k) in z.lists[k]
    ensures Block(Least(x, FlipBit(x, k)), k + 1) !in z.UsedSet()
  {
    var y := FlipBit(x, k);
    var b := Block(Least(x, y), k + 1);
    if b in z.UsedSet() {
      OneBlock(z, b, if x < y then Block(x, k) else Block(y, k));
    }
  }

  lemma LeftOver(all: set<Block>, f: set<Block>, f': set<Block>, x: nat, k: nat, j: nat)
    requires f + Leftovers(x, k, j + 1) == all && f' == f + {Block(x + Pow(j), j)} && k <= j
    ensures f' + Leftovers(x, k, j) == all
  {
  }

  lemma Replaced(u: set<Block>, u': set<Block>, u'': set<Block>, a: Block, b: Block, c: Block)
    requires u' == u - {a} + {b} && u'' == u' - {b} + {c} && a.addr == b.addr && (b in u ==> b == a)
    ensures u'' == u - {a} + {c}
  {
  }

  lemma NewInUse(z: Arena, x: nat, j: nat, k: nat)
    requires z.Shaped() && Block(x, j) in z.FreeSet()
    ensures Block(x, k) !in z.UsedSet()
  {
    if Block(x, k) in z.UsedSet() {
      OneBlock(z, Block(x, j), Block(x, k));
    }
  }

  lemma LeastPowIs(m: nat, n: nat)
    requires IsLeastPow(Pow(m), n)
    ensures n == m
  {
    if n < m {
      PowMono(n, m);
    } else if m < n {
      PowMono(m, n - 1);
    }
  }

  lemma FirstArena(z: Arena, avail: Mem)
    requires Multiple(z.base, z.m) && z.tree == Free && |z.lists| == z.m + 1
    requires forall k: nat :: Head(k) in avail <==> k <= z.m
    requires forall k: nat :: k <= z.m ==> avail[Head(k)].linkf == avail[Head(k)].linkb == Head(k)
    requires forall y :: Blk(y) !in avail
    requires z.mem == avail[Head(z.m) := avail[Head(z.m)].(linkf := Blk(z.base), linkb := Blk(z.base))]
                        [Blk(z.base) := Hdr(true, z.m, Head(z.m), Head(z.m))]
    requires forall k :: 0 <= k <= z.m ==> z.lists[k] == if k == z.m then [z.base] else []
    ensures z.Sound() && z.UsedSet() == {} && z.FreeSet() == {Block(z.base, z.m)}
  {
    assert [z.base][1..] == [];
    assert Path(z.mem, Blk(z.base), [], Head(z.m), z.m);
    forall k | 0 <= k <= z.m ensures Ring(z.mem, k, z.lists[k]) && Distinct(z.lists[k]) {
    }
  }
}
