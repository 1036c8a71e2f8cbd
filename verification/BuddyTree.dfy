/** How the blocks of a buddy arena lie: the arena is one block, or two halves that are arenas themselves. */
module BuddyTree {
  import opened BuddyMath

  datatype Tree = Free | Used | Node(left: Tree, right: Tree)

  /** A block of 2^order bytes at addr. */
  datatype Block = Block(addr: nat, order: nat)

  /** No block is split below one byte. */
  predicate Fits(t: Tree, m: nat) {
    t.Node? ==> m > 0 && Fits(t.left, m - 1) && Fits(t.right, m - 1)
  }

  /** No two free halves of one block. */
  predicate Coalesced(t: Tree) {
    t.Node? ==> !(t.left.Free? && t.right.Free?) && Coalesced(t.left) && Coalesced(t.right)
  }

  ghost function FreeBlocks(t: Tree, a: nat, m: nat): set<Block>
    requires Fits(t, m)
    decreases t
  {
    match t
    case Free => {Block(a, m)}
    case Used => {}
    case Node(l, r) => FreeBlocks(l, a, m - 1) + FreeBlocks(r, a + Pow(m - 1), m - 1)
  }

  ghost function UsedBlocks(t: Tree, a: nat, m: nat): set<Block>
    requires Fits(t, m)
    decreases t
  {
    match t
    case Free => {}
    case Used => {Block(a, m)}
    case Node(l, r) => UsedBlocks(l, a, m - 1) + UsedBlocks(r, a + Pow(m - 1), m - 1)
  }

  /** A block begins at y: there is a header. */
  predicate IsStart(t: Tree, a: nat, m: nat, y: nat)
    requires Fits(t, m)
    decreases t
  {
    if t.Node? then (if y < a + Pow(m - 1) then IsStart(t.left, a, m - 1, y)
                   else IsStart(t.right, a + Pow(m - 1), m - 1, y))
    else y == a
  }

  ghost function Blocks(t: Tree, a: nat, m: nat): set<Block>
    requires Fits(t, m)
  {
    FreeBlocks(t, a, m) + UsedBlocks(t, a, m)
  }

  // The blocks tile the arena.

  /** Every block lies in the arena, aligned to its size, and its start is known. */
  lemma {:induction false} InArena(t: Tree, a: nat, m: nat, b: Block)
    requires Fits(t, m) && b in Blocks(t, a, m) && Multiple(a, m)
    ensures a <= b.addr && b.addr + Pow(b.order) <= a + Pow(m) && b.order <= m && Multiple(b.addr, b.order)
    ensures IsStart(t, a, m, b.addr)
    decreases t
  {
    if t.Node? {
      HalfMultiple(a, m - 1);
      if b in Blocks(t.left, a, m - 1) {
        InArena(t.left, a, m - 1, b);
      } else {
        InArena(t.right, a + Pow(m - 1), m - 1, b);
      }
    }
  }

  lemma {:induction false} StartInArena(t: Tree, a: nat, m: nat, y: nat)
    requires Fits(t, m) && IsStart(t, a, m, y)
    ensures a <= y < a + Pow(m)
    decreases t
  {
    if t.Node? {
      if y < a + Pow(m - 1) {
        StartInArena(t.left, a, m - 1, y);
      } else {
        StartInArena(t.right, a + Pow(m - 1), m - 1, y);
      }
    }
  }

  /** Every byte of the arena is in a block. */
  lemma {:induction false} Covered(t: Tree, a: nat, m: nat, x: nat) returns (b: Block)
    requires Fits(t, m) && a <= x < a + Pow(m)
    ensures b in Blocks(t, a, m) && b.addr <= x < b.addr + Pow(b.order)
    decreases t
  {
    if t.Node? {
      if x < a + Pow(m - 1) {
        b := Covered(t.left, a, m - 1, x);
      } else {
        b := Covered(t.right, a + Pow(m - 1), m - 1, x);
      }
    } else {
      b := Block(a, m);
    }
  }

  /** And in only one. */
  lemma {:induction false} Disjoint(t: Tree, a: nat, m: nat, b: Block, c: Block, x: nat)
    requires Fits(t, m) && Multiple(a, m) && b in Blocks(t, a, m) && c in Blocks(t, a, m)
    requires b.addr <= x < b.addr + Pow(b.order) && c.addr <= x < c.addr + Pow(c.order)
    ensures b == c && (b in FreeBlocks(t, a, m) ==> c !in UsedBlocks(t, a, m))
    decreases t
  {
    if t.Node? {
      var d := a + Pow(m - 1);
      HalfMultiple(a, m - 1);
      if b in Blocks(t.left, a, m - 1) { InArena(t.left, a, m - 1, b); }
      if c in Blocks(t.left, a, m - 1) { InArena(t.left, a, m - 1, c); }
      if b in Blocks(t.right, d, m - 1) { InArena(t.right, d, m - 1, b); }
      if c in Blocks(t.right, d, m - 1) { InArena(t.right, d, m - 1, c); }
      if b in Blocks(t.left, a, m - 1) {
        Disjoint(t.left, a, m - 1, b, c, x);
      } else {
        Disjoint(t.right, d, m - 1, b, c, x);
      }
    }
  }

  /** With no block in use, complete coalescing leaves one block. */
  lemma {:induction false} AllReturned(t: Tree, a: nat, m: nat)
    requires Fits(t, m) && Coalesced(t) && UsedBlocks(t, a, m) == {}
    ensures t == Free && FreeBlocks(t, a, m) == {Block(a, m)}
    decreases t
  {
    if t.Node? {
      assert && UsedBlocks(t.left, a, m - 1) <= UsedBlocks(t, a, m)
             && UsedBlocks(t.right, a + Pow(m - 1), m - 1) <= UsedBlocks(t, a, m);
      AllReturned(t.left, a, m - 1);
      AllReturned(t.right, a + Pow(m - 1), m - 1);
    }
  }

  /** Which blocks are free follows from which are in use: complete coalescing leaves no choice. */
  lemma {:induction false} Canonical(t: Tree, t': Tree, a: nat, m: nat)
    requires Fits(t, m) && Fits(t', m) && Coalesced(t) && Coalesced(t') && Multiple(a, m)
    requires UsedBlocks(t, a, m) == UsedBlocks(t', a, m)
    ensures t == t'
    decreases t, t'
  {
    if UsedBlocks(t, a, m) == {} {
      AllReturned(t, a, m);
      AllReturned(t', a, m);
    } else if t.Used? {
      WholeUsed(t', a, m);
    } else if t'.Used? {
      WholeUsed(t, a, m);
    } else {
      assert t.Node? && t'.Node?;
      HalfMultiple(a, m - 1);
      HalvesUsed(t, a, m);
      HalvesUsed(t', a, m);
      Canonical(t.left, t'.left, a, m - 1);
      Canonical(t.right, t'.right, a + Pow(m - 1), m - 1);
    }
  }

  /** Where some block is not free there is one in use. */
  lemma {:induction false} SomeUsed(t: Tree, a: nat, m: nat) returns (b: Block)
    requires Fits(t, m) && Coalesced(t) && !t.Free?
    ensures b in UsedBlocks(t, a, m) && b.order <= m
    decreases t
  {
    if t.Node? {
      if !t.left.Free? {
        b := SomeUsed(t.left, a, m - 1);
      } else {
        b := SomeUsed(t.right, a + Pow(m - 1), m - 1);
      }
    } else {
      b := Block(a, m);
    }
  }

  /** A free block is no smaller than the smallest block in use: it has not been merged with its other half, which
      therefore is in use at least in part. */
  lemma {:induction false} FreeCoarse(t: Tree, a: nat, m: nat, k: nat, b: Block)
    requires Fits(t, m) && Coalesced(t) && k <= m && b in FreeBlocks(t, a, m)
    requires forall c :: c in UsedBlocks(t, a, m) ==> k <= c.order
    ensures k <= b.order
    decreases t
  {
    if t.Node? {
      if !t.left.Free? {
        var c := SomeUsed(t.left, a, m - 1);
      } else {
        var c := SomeUsed(t.right, a + Pow(m - 1), m - 1);
      }
      if b in FreeBlocks(t.left, a, m - 1) {
        FreeCoarse(t.left, a, m - 1, k, b);
      } else {
        FreeCoarse(t.right, a + Pow(m - 1), m - 1, k, b);
      }
    }
  }

  lemma WholeUsed(t: Tree, a: nat, m: nat)
    requires Fits(t, m) && Multiple(a, m) && UsedBlocks(t, a, m) == {Block(a, m)}
    ensures t == Used
  {
    assert Block(a, m) in UsedBlocks(t, a, m);
    if t.Node? {
      HalfMultiple(a, m - 1);
      if Block(a, m) in UsedBlocks(t.left, a, m - 1) {
        InArena(t.left, a, m - 1, Block(a, m));
      } else {
        InArena(t.right, a + Pow(m - 1), m - 1, Block(a, m));
      }
    }
  }

  /** The blocks in use of the left half are those that start in it. */
  lemma HalvesUsed(t: Tree, a: nat, m: nat)
    requires Fits(t, m) && Multiple(a, m) && t.Node?
    ensures UsedBlocks(t.left, a, m - 1) == set b | b in UsedBlocks(t, a, m) && b.addr < a + Pow(m - 1)
    ensures UsedBlocks(t.right, a + Pow(m - 1), m - 1) == set b | b in UsedBlocks(t, a, m) && b.addr >= a + Pow(m - 1)
  {
    HalfMultiple(a, m - 1);
    forall b | b in UsedBlocks(t, a, m)
      ensures b in UsedBlocks(t.left, a, m - 1) ==> b.addr < a + Pow(m - 1)
      ensures b in UsedBlocks(t.right, a + Pow(m - 1), m - 1) ==> b.addr >= a + Pow(m - 1)
    {
      if b in UsedBlocks(t.left, a, m - 1) { InArena(t.left, a, m - 1, b); }
      if b in UsedBlocks(t.right, a + Pow(m - 1), m - 1) { InArena(t.right, a + Pow(m - 1), m - 1, b); }
    }
  }

  // Changing one place in the tree.

  /** A subtree of order k lies at address x. */
  predicate HasSub(t: Tree, a: nat, m: nat, x: nat, k: nat)
    decreases m
  {
    if k >= m then k == m && x == a
    else t.Node? && if x < a + Pow(m - 1) then HasSub(t.left, a, m - 1, x, k)
                      else HasSub(t.right, a + Pow(m - 1), m - 1, x, k)
  }

  function Sub(t: Tree, a: nat, m: nat, x: nat, k: nat): (s: Tree)
    requires HasSub(t, a, m, x, k)
    ensures Fits(t, m) ==> Fits(s, k)
    ensures Coalesced(t) ==> Coalesced(s)
    decreases m
  {
    if k == m then t
    else if x < a + Pow(m - 1) then Sub(t.left, a, m - 1, x, k) else Sub(t.right, a + Pow(m - 1), m - 1, x, k)
  }

  function Put(t: Tree, a: nat, m: nat, x: nat, k: nat, s: Tree): (t': Tree)
    requires HasSub(t, a, m, x, k)
    ensures Fits(t, m) && Fits(s, k) ==> Fits(t', m)
    decreases m
  {
    if k == m then s
    else if x < a + Pow(m - 1) then Node(Put(t.left, a, m - 1, x, k, s), t.right)
    else Node(t.left, Put(t.right, a + Pow(m - 1), m - 1, x, k, s))
  }

  lemma {:induction false} SubInArena(t: Tree, a: nat, m: nat, x: nat, k: nat)
    requires HasSub(t, a, m, x, k) && Multiple(a, m)
    ensures k <= m && a <= x && x + Pow(k) <= a + Pow(m) && Multiple(x, k)
    decreases m
  {
    if k < m {
      HalfMultiple(a, m - 1);
      if x < a + Pow(m - 1) {
        SubInArena(t.left, a, m - 1, x, k);
      } else {
        SubInArena(t.right, a + Pow(m - 1), m - 1, x, k);
      }
    }
  }

  /** A subtree put in place is found there, and replaced by the next one. */
  lemma {:induction false} PutSub(t: Tree, a: nat, m: nat, x: nat, k: nat, s: Tree, s': Tree)
    requires HasSub(t, a, m, x, k)
    ensures var t' := Put(t, a, m, x, k, s);
            HasSub(t', a, m, x, k) && Sub(t', a, m, x, k) == s && Put(t', a, m, x, k, s') == Put(t, a, m, x, k, s')
    ensures Put(t, a, m, x, k, Sub(t, a, m, x, k)) == t
    decreases m
  {
    if k < m {
      if x < a + Pow(m - 1) {
        PutSub(t.left, a, m - 1, x, k, s, s');
      } else {
        PutSub(t.right, a + Pow(m - 1), m - 1, x, k, s, s');
      }
    }
  }

  /** Blocks are leaves. */
  lemma {:induction false} BlockSub(t: Tree, a: nat, m: nat, b: Block)
    requires Fits(t, m) && Multiple(a, m) && b in Blocks(t, a, m)
    ensures HasSub(t, a, m, b.addr, b.order)
    ensures Sub(t, a, m, b.addr, b.order) == if b in FreeBlocks(t, a, m) then Free else Used
    decreases t
  {
    InArena(t, a, m, b);
    if t.Node? {
      HalfMultiple(a, m - 1);
      var d := a + Pow(m - 1);
      if b in Blocks(t.left, a, m - 1) {
        InArena(t.left, a, m - 1, b);
        if b in Blocks(t.right, d, m - 1) { InArena(t.right, d, m - 1, b); }
        BlockSub(t.left, a, m - 1, b);
      } else {
        InArena(t.right, d, m - 1, b);
        BlockSub(t.right, d, m - 1, b);
      }
    }
  }

  lemma {:induction false} SubBlock(t: Tree, a: nat, m: nat, x: nat, k: nat)
    requires Fits(t, m) && HasSub(t, a, m, x, k)
    ensures && FreeBlocks(Sub(t, a, m, x, k), x, k) <= FreeBlocks(t, a, m)
            && UsedBlocks(Sub(t, a, m, x, k), x, k) <= UsedBlocks(t, a, m)
    decreases m
  {
    if k < m {
      if x < a + Pow(m - 1) {
        SubBlock(t.left, a, m - 1, x, k);
      } else {
        SubBlock(t.right, a + Pow(m - 1), m - 1, x, k);
      }
    }
  }

  // Replacing a subtree replaces its blocks and no others.

  lemma {:induction false} PutFreeBlocks(t: Tree, a: nat, m: nat, x: nat, k: nat, s: Tree)
    requires Fits(t, m) && Fits(s, k) && Multiple(a, m) && HasSub(t, a, m, x, k)
    ensures FreeBlocks(Put(t, a, m, x, k, s), a, m) ==
              FreeBlocks(t, a, m) - FreeBlocks(Sub(t, a, m, x, k), x, k) + FreeBlocks(s, x, k)
    decreases m
  {
    if k < m {
      var d, o := a + Pow(m - 1), Sub(t, a, m, x, k);
      HalfMultiple(a, m - 1);
      Apart(t.left, a, m - 1, t.right, d);
      if x < d {
        PutFreeBlocks(t.left, a, m - 1, x, k, s);
        SubBlock(t.left, a, m - 1, x, k);
        Exchange(FreeBlocks(t.left, a, m - 1), FreeBlocks(t.right, d, m - 1), FreeBlocks(o, x, k), FreeBlocks(s, x, k));
      } else {
        PutFreeBlocks(t.right, d, m - 1, x, k, s);
        SubBlock(t.right, d, m - 1, x, k);
        Exchange(FreeBlocks(t.right, d, m - 1), FreeBlocks(t.left, a, m - 1), FreeBlocks(o, x, k), FreeBlocks(s, x, k));
      }
    }
  }

  lemma {:induction false} PutUsedBlocks(t: Tree, a: nat, m: nat, x: nat, k: nat, s: Tree)
    requires Fits(t, m) && Fits(s, k) && Multiple(a, m) && HasSub(t, a, m, x, k)
    ensures UsedBlocks(Put(t, a, m, x, k, s), a, m) ==
              UsedBlocks(t, a, m) - UsedBlocks(Sub(t, a, m, x, k), x, k) + UsedBlocks(s, x, k)
    decreases m
  {
    if k < m {
      var d, o := a + Pow(m - 1), Sub(t, a, m, x, k);
      HalfMultiple(a, m - 1);
      Apart(t.left, a, m - 1, t.right, d);
      if x < d {
        PutUsedBlocks(t.left, a, m - 1, x, k, s);
        SubBlock(t.left, a, m - 1, x, k);
        Exchange(UsedBlocks(t.left, a, m - 1), UsedBlocks(t.right, d, m - 1), UsedBlocks(o, x, k), UsedBlocks(s, x, k));
      } else {
        PutUsedBlocks(t.right, d, m - 1, x, k, s);
        SubBlock(t.right, d, m - 1, x, k);
        Exchange(UsedBlocks(t.right, d, m - 1), UsedBlocks(t.left, a, m - 1), UsedBlocks(o, x, k), UsedBlocks(s, x, k));
      }
    }
  }

  lemma {:induction false} PutStarts(t: Tree, a: nat, m: nat, x: nat, k: nat, s: Tree, y: nat)
    requires Fits(t, m) && Fits(s, k) && Multiple(a, m) && HasSub(t, a, m, x, k)
    ensures IsStart(Put(t, a, m, x, k, s), a, m, y) ==
              if x <= y < x + Pow(k) then IsStart(s, x, k, y) else IsStart(t, a, m, y)
    ensures x <= y < x + Pow(k) ==> IsStart(t, a, m, y) == IsStart(Sub(t, a, m, x, k), x, k, y)
    decreases m
  {
    if k < m {
      var d := a + Pow(m - 1);
      HalfMultiple(a, m - 1);
      if x < d {
        SubInArena(t.left, a, m - 1, x, k);
        PutStarts(t.left, a, m - 1, x, k, s, y);
      } else {
        SubInArena(t.right, d, m - 1, x, k);
        PutStarts(t.right, d, m - 1, x, k, s, y);
      }
    } else {
      NoStart(t, a, m, y);
      NoStart(s, a, m, y);
    }
  }

  lemma NoStart(t: Tree, a: nat, m: nat, y: nat)
    requires Fits(t, m)
    ensures !(a <= y < a + Pow(m)) ==> !IsStart(t, a, m, y)
  {
    if IsStart(t, a, m, y) {
      StartInArena(t, a, m, y);
    }
  }

  lemma Exchange<T>(here: set<T>, there: set<T>, old_: set<T>, new_: set<T>)
    requires old_ <= here && here !! there
    ensures && (here - old_ + new_) + there == (here + there) - old_ + new_
            && there + (here - old_ + new_) == (there + here) - old_ + new_
  {
  }

  /** The halves of a block have nothing in common. */
  lemma Apart(l: Tree, a: nat, m: nat, r: Tree, d: nat)
    requires Fits(l, m) && Fits(r, m) && d == a + Pow(m) && Multiple(a, m) && Multiple(d, m)
    ensures FreeBlocks(l, a, m) !! FreeBlocks(r, d, m) && UsedBlocks(l, a, m) !! UsedBlocks(r, d, m)
  {
    forall b | b in FreeBlocks(l, a, m) ensures b !in FreeBlocks(r, d, m) {
      BlockApart(l, a, m, r, d, b);
    }
    forall b | b in UsedBlocks(l, a, m) ensures b !in UsedBlocks(r, d, m) {
      BlockApart(l, a, m, r, d, b);
    }
  }

  lemma BlockApart(l: Tree, a: nat, m: nat, r: Tree, d: nat, b: Block)
    requires Fits(l, m) && Fits(r, m) && d == a + Pow(m) && Multiple(a, m) && Multiple(d, m) && b in Blocks(l, a, m)
    ensures b !in Blocks(r, d, m)
  {
    InArena(l, a, m, b);
    if b in Blocks(r, d, m) {
      InArena(r, d, m, b);
    }
  }

  /** Every subtree but the whole is half of one, and its address is found from the other half's by flipping one bit. */
  lemma {:induction false} Parent(t: Tree, a: nat, m: nat, x: nat, k: nat)
    requires HasSub(t, a, m, x, k) && Multiple(a, m) && k < m
    ensures var y := FlipBit(x, k); var p := Least(x, y);
            && (y == x + Pow(k) || x == y + Pow(k)) && HasSub(t, a, m, p, k + 1) && Sub(t, a, m, p, k + 1).Node?
            && HasSub(t, a, m, y, k)
            && Sub(t, a, m, p, k + 1) ==
                (if x < y then Node(Sub(t, a, m, x, k), Sub(t, a, m, y, k))
                 else Node(Sub(t, a, m, y, k), Sub(t, a, m, x, k)))
    decreases m
  {
    HalfMultiple(a, m - 1);
    var d := a + Pow(m - 1);
    if k + 1 == m {
      FlipHalf(a, k);
    } else if x < d {
      Parent(t.left, a, m - 1, x, k);
      SubInArena(t.left, a, m - 1, Least(x, FlipBit(x, k)), k + 1);
      assert FlipBit(x, k) < d;
    } else {
      Parent(t.right, d, m - 1, x, k);
      SubInArena(t.right, d, m - 1, Least(x, FlipBit(x, k)), k + 1);
    }
  }

  /** A block begins where a subtree does. */
  lemma {:induction false} FirstBlock(s: Tree, x: nat, k: nat) returns (j: nat)
    requires Fits(s, k)
    ensures j <= k && IsStart(s, x, k, x) && Block(x, j) in Blocks(s, x, k) && (j == k <==> !s.Node?)
    ensures !s.Node? ==> (s.Free? <==> Block(x, j) in FreeBlocks(s, x, k))
    decreases s
  {
    j := k;
    if s.Node? {
      j := FirstBlock(s.left, x, k - 1);
    }
  }

  // Complete coalescing under change.

  lemma {:induction false} PutUsedCoalesced(t: Tree, a: nat, m: nat, x: nat, k: nat, s: Tree)
    requires HasSub(t, a, m, x, k) && Coalesced(t) && Coalesced(s) && !s.Free?
    ensures Coalesced(Put(t, a, m, x, k, s)) && (!Put(t, a, m, x, k, s).Free?)
    decreases m
  {
    if k < m {
      if x < a + Pow(m - 1) {
        PutUsedCoalesced(t.left, a, m - 1, x, k, s);
      } else {
        PutUsedCoalesced(t.right, a + Pow(m - 1), m - 1, x, k, s);
      }
    }
  }

  /** A block set free whose other half is not free keeps the tree coalesced. */
  lemma {:induction false} PutFreeCoalesced(t: Tree, a: nat, m: nat, x: nat, k: nat)
    requires HasSub(t, a, m, x, k) && Coalesced(t) && Multiple(a, m)
    requires k < m ==> HasSub(t, a, m, FlipBit(x, k), k) && !Sub(t, a, m, FlipBit(x, k), k).Free?
    ensures Coalesced(Put(t, a, m, x, k, Free)) && (k < m ==> Put(t, a, m, x, k, Free).Node?)
    decreases m
  {
    if k < m {
      Parent(t, a, m, x, k);
      HalfMultiple(a, m - 1);
      var d := a + Pow(m - 1);
      if k + 1 == m {
        FlipHalf(a, k);
      } else if x < d {
        Parent(t.left, a, m - 1, x, k);
        SubInArena(t.left, a, m - 1, FlipBit(x, k), k);
        PutFreeCoalesced(t.left, a, m - 1, x, k);
      } else {
        Parent(t.right, d, m - 1, x, k);
        SubInArena(t.right, d, m - 1, FlipBit(x, k), k);
        PutFreeCoalesced(t.right, d, m - 1, x, k);
      }
    }
  }
}
