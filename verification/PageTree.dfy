/** Four-level page tables: the tree of table pages and the translation it stands for. */
module PageTree {
  import BuddyMath

  /** A 64-bit table entry: bits 60 to 63, the frame number in bits 12 to 59, and the low 12 bits. */
  datatype Entry = Entry(high: nat, frame: nat, low: nat)

  const EMPTY := Entry(0, 0, 0)

  /** What lies in the table pages, by frame number. */
  type Memory = map<nat, seq<Entry>>

  datatype Option<T> = None | Some(value: T)

  predicate Present(e: Entry) {
    e.low % 2 == 1
  }

  /** e | f */
  function Or(e: Entry, f: Entry): Entry {
    Entry(BuddyMath.Or(e.high, f.high), BuddyMath.Or(e.frame, f.frame), BuddyMath.Or(e.low, f.low))
  }

  /** The place of an address in the table of level l, 4 for the PML4 down to 1 for a PT. */
  function Index(v: nat, l: nat): (i: nat)
    ensures i < 512
  {
    (if l == 4 then v / 0x80_0000_0000 else if l == 3 then v / 0x4000_0000
     else if l == 2 then v / 0x20_0000 else v / 0x1000) % 512
  }

  predicate SamePage(v: nat, w: nat) {
    forall l :: 1 <= l <= 4 ==> Index(v, l) == Index(w, l)
  }

  predicate IsTable(mem: Memory, t: nat) {
    t in mem && |mem[t]| == 512
  }

  /** The translation of v from table t of level l on. */
  function Walk(mem: Memory, t: nat, l: nat, v: nat): Option<nat>
    decreases l
  {
    if l == 0 then Some(t)
    else if IsTable(mem, t) && Present(mem[t][Index(v, l)]) then Walk(mem, mem[t][Index(v, l)].frame, l - 1, v)
    else None
  }

  /** The translation of v beyond an entry of level l. */
  function Beyond(mem: Memory, e: Entry, l: nat, v: nat): Option<nat>
    requires l > 0
  {
    if Present(e) then Walk(mem, e.frame, l - 1, v) else None
  }

  /** The tables, each with its level, form a tree: entries lead to tables of the next level, and each table is led to
      by one entry at most. */
  ghost predicate IsTree(mem: Memory, root: nat, levels: map<nat, nat>) {
    && root in levels && levels[root] == 4
    && (forall t :: t in levels ==> 1 <= levels[t] <= 4 && IsTable(mem, t))
    && (forall t, i ::
          Leads(mem, levels, t, i) ==> mem[t][i].frame in levels && levels[mem[t][i].frame] == levels[t] - 1)
    && (forall t, i, u, j ::
          Leads(mem, levels, t, i) && Leads(mem, levels, u, j) && mem[t][i].frame == mem[u][j].frame ==>
            t == u && i == j)
  }

  /** Entry i of table t leads to a table. */
  predicate Leads(mem: Memory, levels: map<nat, nat>, t: nat, i: int) {
    t in levels && levels[t] > 1 && IsTable(mem, t) && 0 <= i < 512 && Present(mem[t][i])
  }

  /** IsTree, with a countdown that only keeps proofs from looking inside where TreeIs is not called. */
  ghost predicate Tree(mem: Memory, root: nat, levels: map<nat, nat>) {
    TreeAfter(mem, root, levels, |levels|)
  }

  ghost predicate TreeAfter(mem: Memory, root: nat, levels: map<nat, nat>, countdown: nat) {
    if countdown > 0 then TreeAfter(mem, root, levels, countdown - 1) else IsTree(mem, root, levels)
  }

  lemma {:induction false} TreeAfterIs(mem: Memory, root: nat, levels: map<nat, nat>, countdown: nat)
    ensures TreeAfter(mem, root, levels, countdown) <==> IsTree(mem, root, levels)
  {
    if countdown > 0 {
      TreeAfterIs(mem, root, levels, countdown - 1);
    }
  }

  lemma TreeIs(mem: Memory, root: nat, levels: map<nat, nat>)
    ensures Tree(mem, root, levels) <==> IsTree(mem, root, levels)
  {
    TreeAfterIs(mem, root, levels, |levels|);
  }

  lemma TreeFacts(mem: Memory, root: nat, levels: map<nat, nat>, t: nat)
    requires Tree(mem, root, levels)
    ensures root in levels && levels[root] == 4 && (t in levels ==> 1 <= levels[t] <= 4 && IsTable(mem, t))
  {
    TreeIs(mem, root, levels);
  }

  lemma TreeLeads(mem: Memory, root: nat, levels: map<nat, nat>, t: nat, i: nat)
    requires Tree(mem, root, levels) && Leads(mem, levels, t, i)
    ensures mem[t][i].frame in levels && levels[mem[t][i].frame] == levels[t] - 1
  {
    TreeIs(mem, root, levels);
  }

  /** The walk of v from table t of level l comes to entry i of table s. */
  predicate Hits(mem: Memory, t: nat, l: nat, v: nat, s: nat, i: nat)
    decreases l
  {
    l > 0 && IsTable(mem, t)
    && (|| (t == s && Index(v, l) == i)
        || (Present(mem[t][Index(v, l)]) && Hits(mem, mem[t][Index(v, l)].frame, l - 1, v, s, i)))
  }

  /** mem' is mem with entry i of table s replaced, as far as the tables in `levels` go. */
  ghost predicate Replaces(mem: Memory, mem': Memory, levels: map<nat, nat>, s: nat, i: nat, e: Entry) {
    && s in levels && IsTable(mem, s) && i < 512 && s in mem' && mem'[s] == mem[s][i := e]
    && forall t :: t in levels && t != s ==> t in mem && t in mem' && mem'[t] == mem[t]
  }

  /** Replacing an entry changes the walks that come to it, from there on, and no others. */
  lemma {:induction false} WalkReplaced(mem: Memory, mem': Memory, root: nat, levels: map<nat, nat>, t: nat, l: nat,
      v: nat, s: nat, i: nat, e: Entry)
    requires && IsTree(mem, root, levels) && Replaces(mem, mem', levels, s, i, e) && l <= 4
             && (l > 0 ==> t in levels && levels[t] == l)
    ensures Hits(mem, t, l, v, s, i) ==>
              && Walk(mem, t, l, v) == Beyond(mem, mem[s][i], levels[s], v)
              && Walk(mem', t, l, v) == Beyond(mem', e, levels[s], v)
    ensures !Hits(mem, t, l, v, s, i) ==> Walk(mem', t, l, v) == Walk(mem, t, l, v)
    decreases l
  {
    if l > 0 {
      var f := mem[t][Index(v, l)];
      if Present(f) {
        WalkReplaced(mem, mem', root, levels, f.frame, l - 1, v, s, i, e);
        if t == s && Index(v, l) == i {
          NotBelow(mem, root, levels, f.frame, l - 1, v, s, i);
        }
      }
    }
  }

  /** A walk goes down: it does not come back to a table of the same or a higher level. */
  lemma {:induction false} NotBelow(mem: Memory, root: nat, levels: map<nat, nat>, t: nat, l: nat, v: nat, s: nat,
      i: nat)
    requires IsTree(mem, root, levels) && (l > 0 ==> t in levels && levels[t] == l) && s in levels && levels[s] > l
    ensures !Hits(mem, t, l, v, s, i)
    decreases l
  {
    if l > 0 && Present(mem[t][Index(v, l)]) {
      NotBelow(mem, root, levels, mem[t][Index(v, l)].frame, l - 1, v, s, i);
    }
  }

  /** Two walks that come to the same entry have come the same way. */
  lemma {:induction false} OneWay(mem: Memory, root: nat, levels: map<nat, nat>, a: nat, b: nat, l: nat, v: nat,
      w: nat, s: nat, i: nat)
    requires IsTree(mem, root, levels) && s in levels && l >= levels[s]
    requires && a in levels && levels[a] == l && b in levels && levels[b] == l && Hits(mem, a, l, v, s, i)
             && Hits(mem, b, l, w, s, i)
    ensures a == b && forall k :: levels[s] <= k <= l ==> Index(v, k) == Index(w, k)
    decreases l
  {
    var e, f := mem[a][Index(v, l)], mem[b][Index(w, l)];
    if l == levels[s] {
      if Present(e) { NotBelow(mem, root, levels, e.frame, l - 1, v, s, i); }
      if Present(f) { NotBelow(mem, root, levels, f.frame, l - 1, w, s, i); }
    } else {
      OneWay(mem, root, levels, e.frame, f.frame, l - 1, v, w, s, i);
    }
  }

  /** The walk of v to a table goes on to the entry for v there. */
  lemma {:induction false} HitsNext(mem: Memory, root: nat, levels: map<nat, nat>, t: nat, l: nat, v: nat, s: nat)
    requires IsTree(mem, root, levels) && t in levels && levels[t] == l && s in levels && levels[s] > 1
    requires Hits(mem, t, l, v, s, Index(v, levels[s])) && Present(mem[s][Index(v, levels[s])])
    ensures Hits(mem, t, l, v, mem[s][Index(v, levels[s])].frame, Index(v, levels[s] - 1))
    decreases l
  {
    var e := mem[t][Index(v, l)];
    if t != s {
      if l > 1 {
        HitsNext(mem, root, levels, e.frame, l - 1, v, s);
      } else {
        assert false;
      }
    }
  }

  /** The way to an entry does not depend on the entry. */
  lemma {:induction false} HitsReplaced(mem: Memory, mem': Memory, root: nat, levels: map<nat, nat>, t: nat, l: nat,
      v: nat, s: nat, i: nat, e: Entry)
    requires && IsTree(mem, root, levels) && Replaces(mem, mem', levels, s, i, e) && t in levels && levels[t] == l
             && Hits(mem, t, l, v, s, i)
    ensures Hits(mem', t, l, v, s, i)
    decreases l
  {
    var f := mem[t][Index(v, l)];
    if !(t == s && Index(v, l) == i) {
      if l > 1 {
        HitsReplaced(mem, mem', root, levels, f.frame, l - 1, v, s, i, e);
      } else {
        assert false;
      }
    }
  }

  // Changes that leave every translation as it is, and the one that does not.

  ghost predicate SameWalks(mem: Memory, mem': Memory, root: nat) {
    forall v: nat :: Walk(mem', root, 4, v) == Walk(mem, root, 4, v)
  }

  ghost predicate IsEmpty(mem: Memory, t: nat) {
    IsTable(mem, t) && forall i :: 0 <= i < 512 ==> !Present(mem[t][i])
  }

  lemma EmptyWalk(mem: Memory, t: nat, l: nat, v: nat)
    requires l > 0 && IsEmpty(mem, t)
    ensures Walk(mem, t, l, v) == None
  {
  }

  /** A new, empty table hung into an entry that led nowhere. */
  lemma AddTable(mem: Memory, mem': Memory, root: nat, levels: map<nat, nat>, s: nat, i: nat, e: Entry)
    requires IsTree(mem, root, levels) && s in levels && levels[s] > 1 && i < 512 && !Present(mem[s][i])
    requires Present(e) && e.frame !in levels && IsEmpty(mem', e.frame) && Replaces(mem, mem', levels, s, i, e)
    ensures IsTree(mem', root, levels[e.frame := levels[s] - 1]) && SameWalks(mem, mem', root)
  {
    var n, levels' := e.frame, levels[e.frame := levels[s] - 1];
    forall v: nat ensures Walk(mem', root, 4, v) == Walk(mem, root, 4, v) {
      WalkReplaced(mem, mem', root, levels, root, 4, v, s, i, e);
      EmptyWalk(mem', n, levels[s] - 1, v);
    }
    forall t, k | Leads(mem', levels', t, k)
      ensures (t == s && k == i) || (Leads(mem, levels, t, k) && mem'[t][k] == mem[t][k])
    {
    }
  }

  /** Other flags in an entry that leads to the same table. */
  lemma RefreshEntry(mem: Memory, mem': Memory, root: nat, levels: map<nat, nat>, s: nat, i: nat, e: Entry)
    requires && IsTree(mem, root, levels) && s in levels && i < 512 && Present(mem[s][i]) && Present(e)
             && e.frame == mem[s][i].frame
    requires Replaces(mem, mem', levels, s, i, e)
    ensures IsTree(mem', root, levels) && SameWalks(mem, mem', root)
  {
    forall t, k | Leads(mem', levels, t, k) ensures Leads(mem, levels, t, k) && mem'[t][k].frame == mem[t][k].frame {
    }
    forall v: nat ensures Walk(mem', root, 4, v) == Walk(mem, root, 4, v) {
      WalkReplaced(mem, mem', root, levels, root, 4, v, s, i, e);
      if Hits(mem, root, 4, v, s, i) && levels[s] > 1 {
        assert Leads(mem, levels, s, i);
        var n, l := e.frame, levels[s];
        WalkReplaced(mem, mem', root, levels, n, l - 1, v, s, i, e);
        NotBelow(mem, root, levels, n, l - 1, v, s, i);
      }
    }
  }

  /** An emptied table taken out of the entry that led to it. */
  lemma DropTable(mem: Memory, mem': Memory, root: nat, levels: map<nat, nat>, s: nat, i: nat, e: Entry)
    requires && IsTree(mem, root, levels) && s in levels && levels[s] > 1 && i < 512 && Present(mem[s][i])
             && IsEmpty(mem, mem[s][i].frame)
    requires !Present(e) && Replaces(mem, mem', levels, s, i, e)
    ensures IsTree(mem', root, levels - {mem[s][i].frame}) && SameWalks(mem, mem', root) && mem[s][i].frame in levels
  {
    var n := mem[s][i].frame;
    var levels' := levels - {n};
    assert Leads(mem, levels, s, i);
    forall v: nat ensures Walk(mem', root, 4, v) == Walk(mem, root, 4, v) {
      WalkReplaced(mem, mem', root, levels, root, 4, v, s, i, e);
      EmptyWalk(mem, n, levels[s] - 1, v);
    }
    forall t, k | Leads(mem', levels', t, k)
      ensures Leads(mem, levels, t, k) && mem'[t][k] == mem[t][k] && mem[t][k].frame != n
    {
    }
  }

  /** An entry of a page table: the translation of that one page. */
  lemma SetLeaf(mem: Memory, mem': Memory, root: nat, levels: map<nat, nat>, s: nat, v: nat, e: Entry)
    requires IsTree(mem, root, levels) && s in levels && levels[s] == 1 && Hits(mem, root, 4, v, s, Index(v, 1))
    requires Replaces(mem, mem', levels, s, Index(v, 1), e)
    ensures IsTree(mem', root, levels)
    ensures Walk(mem, root, 4, v) == Beyond(mem, mem[s][Index(v, 1)], 1, v)
    ensures forall w: nat ::
              Walk(mem', root, 4, w) == if SamePage(v, w) then Beyond(mem', e, 1, w) else Walk(mem, root, 4, w)
  {
    var i := Index(v, 1);
    forall t, k | Leads(mem', levels, t, k) ensures Leads(mem, levels, t, k) && mem'[t][k] == mem[t][k] {
    }
    WalkReplaced(mem, mem', root, levels, root, 4, v, s, i, e);
    forall w: nat
      ensures Walk(mem', root, 4, w) == if SamePage(v, w) then Beyond(mem', e, 1, w) else Walk(mem, root, 4, w)
    {
      WalkReplaced(mem, mem', root, levels, root, 4, w, s, i, e);
      if SamePage(v, w) {
        SameHits(mem, root, 4, v, w, s, i);
      } else if Hits(mem, root, 4, w, s, i) {
        OneWay(mem, root, levels, root, root, 4, v, w, s, i);
      }
    }
  }

  lemma {:induction false} SameHits(mem: Memory, t: nat, l: nat, v: nat, w: nat, s: nat, i: nat)
    requires SamePage(v, w) && l <= 4 && Hits(mem, t, l, v, s, i)
    ensures Hits(mem, t, l, w, s, i)
    decreases l
  {
    if !(t == s && Index(v, l) == i) {
      SameHits(mem, mem[t][Index(v, l)].frame, l - 1, v, w, s, i);
    }
  }

  // No table is kept for nothing.

  /** Some entry leads to table t. */
  ghost predicate Reached(mem: Memory, levels: map<nat, nat>, t: nat) {
    exists s, i :: LeadsTo(mem, levels, s, i, t)
  }

  predicate LeadsTo(mem: Memory, levels: map<nat, nat>, s: nat, i: int, t: nat) {
    Leads(mem, levels, s, i) && mem[s][i].frame == t
  }

  /** Each table but the root is led to by an entry, and holds an entry that is present; table x need not hold one. */
  ghost predicate IsTight(mem: Memory, root: nat, levels: map<nat, nat>, x: nat) {
    forall t :: t in levels && t != root ==> Reached(mem, levels, t) && (t != x ==> !IsEmpty(mem, t))
  }

  /** IsTight, with a countdown that only keeps proofs from looking inside where TightIs is not called. */
  ghost predicate Tight(mem: Memory, root: nat, levels: map<nat, nat>, x: nat) {
    TightAfter(mem, root, levels, x, |levels|)
  }

  ghost predicate TightAfter(mem: Memory, root: nat, levels: map<nat, nat>, x: nat, countdown: nat) {
    if countdown > 0 then TightAfter(mem, root, levels, x, countdown - 1) else IsTight(mem, root, levels, x)
  }

  lemma {:induction false} TightAfterIs(mem: Memory, root: nat, levels: map<nat, nat>, x: nat, countdown: nat)
    ensures TightAfter(mem, root, levels, x, countdown) <==> IsTight(mem, root, levels, x)
  {
    if countdown > 0 {
      TightAfterIs(mem, root, levels, x, countdown - 1);
    }
  }

  lemma TightIs(mem: Memory, root: nat, levels: map<nat, nat>, x: nat)
    ensures Tight(mem, root, levels, x) <==> IsTight(mem, root, levels, x)
  {
    TightAfterIs(mem, root, levels, x, |levels|);
  }

  /** Table x may be empty, and is not. */
  lemma NotKept(mem: Memory, root: nat, levels: map<nat, nat>, x: nat)
    requires Tight(mem, root, levels, x) && !IsEmpty(mem, x)
    ensures Tight(mem, root, levels, root)
  {
    TightIs(mem, root, levels, x);
    TightIs(mem, root, levels, root);
  }

  lemma TightAnyway(mem: Memory, root: nat, levels: map<nat, nat>, x: nat)
    requires Tight(mem, root, levels, root)
    ensures Tight(mem, root, levels, x)
  {
    TightIs(mem, root, levels, x);
    TightIs(mem, root, levels, root);
  }

  /** An empty table hung into table s: s is not empty now. */
  lemma TightAdd(mem: Memory, mem': Memory, root: nat, levels: map<nat, nat>, s: nat, i: nat, e: Entry)
    requires Tree(mem, root, levels) && Tight(mem, root, levels, s) && s in levels && levels[s] > 1
    requires && Replaces(mem, mem', levels, s, i, e) && !Present(mem[s][i]) && Present(e) && e.frame !in levels
             && IsTable(mem', e.frame)
    ensures Tight(mem', root, levels[e.frame := levels[s] - 1], e.frame)
  {
    var n, levels' := e.frame, levels[e.frame := levels[s] - 1];
    TreeIs(mem, root, levels);
    TightIs(mem, root, levels, s);
    TightIs(mem', root, levels', n);
    assert LeadsTo(mem', levels', s, i, n);
    forall t | t in levels && t != root ensures Reached(mem', levels', t) && !IsEmpty(mem', t) {
      var u, k :| LeadsTo(mem, levels, u, k, t);
      assert LeadsTo(mem', levels', u, k, t);
      if t != s {
        assert mem'[t] == mem[t];
      }
    }
  }

  /** A present entry in table s stays, or becomes, present and leads to where it led. */
  lemma TightSet(mem: Memory, mem': Memory, root: nat, levels: map<nat, nat>, s: nat, i: nat, e: Entry, x: nat)
    requires && Tree(mem, root, levels) && Tight(mem, root, levels, x) && s in levels && i < 512
             && Replaces(mem, mem', levels, s, i, e)
    requires Present(e) && (levels[s] == 1 || (Present(mem[s][i]) && e.frame == mem[s][i].frame))
    ensures Tight(mem', root, levels, if x == s then root else x)
  {
    var x' := if x == s then root else x;
    TreeIs(mem, root, levels);
    TightIs(mem, root, levels, x);
    TightIs(mem', root, levels, x');
    forall t | t in levels && t != root ensures Reached(mem', levels, t) && (t != x' ==> !IsEmpty(mem', t)) {
      var u, k :| LeadsTo(mem, levels, u, k, t);
      assert LeadsTo(mem', levels, u, k, t);
      if t == s {
        assert Present(mem'[t][i]);
      } else {
        assert mem'[t] == mem[t];
      }
    }
  }

  /** The empty table taken out that an entry of table s leads to: s may be empty now. */
  lemma TightDrop(mem: Memory, mem': Memory, root: nat, levels: map<nat, nat>, s: nat, i: nat, e: Entry)
    requires Tree(mem, root, levels) && Leads(mem, levels, s, i) && IsEmpty(mem, mem[s][i].frame) && !Present(e)
    requires Tight(mem, root, levels, mem[s][i].frame) && Replaces(mem, mem', levels, s, i, e)
    ensures Tight(mem', root, levels - {mem[s][i].frame}, s)
  {
    var n := mem[s][i].frame;
    var levels' := levels - {n};
    TreeIs(mem, root, levels);
    TightIs(mem, root, levels, n);
    TightIs(mem', root, levels', s);
    forall t | t in levels' && t != root ensures Reached(mem', levels', t) && (t != s ==> !IsEmpty(mem', t)) {
      var u, k :| LeadsTo(mem, levels, u, k, t);
      assert !(u == s && k == i) && u != n;
      assert LeadsTo(mem', levels', u, k, t);
      if t != s {
        assert mem'[t] == mem[t];
      }
    }
  }

  /** An entry of page table s marked absent: s may be empty now. */
  lemma TightClear(mem: Memory, mem': Memory, root: nat, levels: map<nat, nat>, s: nat, i: nat, e: Entry)
    requires && Tree(mem, root, levels) && Tight(mem, root, levels, root) && s in levels && levels[s] == 1
             && Replaces(mem, mem', levels, s, i, e)
    ensures Tight(mem', root, levels, s)
  {
    TreeIs(mem, root, levels);
    TightIs(mem, root, levels, root);
    TightIs(mem', root, levels, s);
    forall t | t in levels && t != root ensures Reached(mem', levels, t) && (t != s ==> !IsEmpty(mem', t)) {
      var u, k :| LeadsTo(mem, levels, u, k, t);
      assert LeadsTo(mem', levels, u, k, t);
      if t != s {
        assert mem'[t] == mem[t];
      }
    }
  }

  /** The address with entry i at level l and otherwise as v. */
  function Turned(v: nat, l: nat, i: nat): nat
    requires 1 <= l <= 4 && i < 512
  {
    if l == 4 then At(i, Index(v, 3), Index(v, 2), Index(v, 1))
    else if l == 3 then At(Index(v, 4), i, Index(v, 2), Index(v, 1))
    else if l == 2 then At(Index(v, 4), Index(v, 3), i, Index(v, 1))
    else At(Index(v, 4), Index(v, 3), Index(v, 2), i)
  }

  /** The address of the page with these places in the four tables on the way to it. */
  function At(i4: nat, i3: nat, i2: nat, i1: nat): nat {
    0x80_0000_0000 * i4 + 0x4000_0000 * i3 + 0x20_0000 * i2 + 0x1000 * i1
  }

  lemma DigitOf(q: nat, a: nat, i: nat)
    requires q == 512 * a + i && i < 512
    ensures q % 512 == i
  {
  }

  lemma Quotient1(v: nat, q: nat, low: nat)
    requires v == 0x1000 * q + low && low < 0x1000
    ensures v / 0x1000 == q
  {
  }

  lemma Quotient2(v: nat, q: nat, low: nat)
    requires v == 0x20_0000 * q + low && low < 0x20_0000
    ensures v / 0x20_0000 == q
  {
  }

  lemma Quotient3(v: nat, q: nat, low: nat)
    requires v == 0x4000_0000 * q + low && low < 0x4000_0000
    ensures v / 0x4000_0000 == q
  {
  }

  lemma Quotient4(v: nat, q: nat, low: nat)
    requires v == 0x80_0000_0000 * q + low && low < 0x80_0000_0000
    ensures v / 0x80_0000_0000 == q
  {
  }

  lemma AtIndex(i4: nat, i3: nat, i2: nat, i1: nat)
    requires i4 < 512 && i3 < 512 && i2 < 512 && i1 < 512
    ensures var v := At(i4, i3, i2, i1);
            Index(v, 4) == i4 && Index(v, 3) == i3 && Index(v, 2) == i2 && Index(v, 1) == i1
  {
    var v := At(i4, i3, i2, i1);
    var q2, q3 := 512 * (512 * i4 + i3) + i2, 512 * i4 + i3;
    var r1, r2, r3 := 0x1000 * i1, 0x20_0000 * i2 + 0x1000 * i1, 0x4000_0000 * i3 + 0x20_0000 * i2 + 0x1000 * i1;
    Quotient1(v, 512 * q2 + i1, 0);
    Quotient2(v, q2, r1);
    Quotient3(v, q3, r2);
    Quotient4(v, i4, r3);
    DigitOf(512 * q2 + i1, q2, i1);
    DigitOf(q2, q3, i2);
    DigitOf(q3, i4, i3);
    DigitOf(i4, 0, i4);
  }

  lemma TurnedIndex(v: nat, l: nat, i: nat, k: nat)
    requires 1 <= l <= 4 && i < 512 && 1 <= k <= 4
    ensures Index(Turned(v, l, i), k) == if k == l then i else Index(v, k)
  {
    if l == 4 {
      AtIndex(i, Index(v, 3), Index(v, 2), Index(v, 1));
    } else if l == 3 {
      AtIndex(Index(v, 4), i, Index(v, 2), Index(v, 1));
    } else if l == 2 {
      AtIndex(Index(v, 4), Index(v, 3), i, Index(v, 1));
    } else {
      AtIndex(Index(v, 4), Index(v, 3), Index(v, 2), i);
    }
  }

  /** The walk from a table of level l depends only on the places at levels up to l. */
  lemma {:induction false} WalkLow(mem: Memory, t: nat, l: nat, v: nat, w: nat)
    requires l <= 4 && forall k :: 1 <= k <= l ==> Index(v, k) == Index(w, k)
    ensures Walk(mem, t, l, v) == Walk(mem, t, l, w)
    decreases l
  {
    if l > 0 && IsTable(mem, t) && Present(mem[t][Index(v, l)]) {
      WalkLow(mem, mem[t][Index(v, l)].frame, l - 1, v, w);
    }
  }

  /** Some page is mapped through each table. */
  lemma {:induction false} MappedBelow(mem: Memory, root: nat, levels: map<nat, nat>, t: nat) returns (v: nat)
    requires IsTree(mem, root, levels) && IsTight(mem, root, levels, root) && t in levels && !IsEmpty(mem, t)
    ensures Walk(mem, t, levels[t], v).Some?
    decreases levels[t]
  {
    var l := levels[t];
    var i :| 0 <= i < 512 && Present(mem[t][i]);
    var w := 0;
    if l > 1 {
      assert Leads(mem, levels, t, i);
      w := MappedBelow(mem, root, levels, mem[t][i].frame);
    }
    v := Turned(w, l, i);
    TurnedIndex(w, l, i, l);
    forall k | 1 <= k <= l - 1 ensures Index(v, k) == Index(w, k) {
      TurnedIndex(w, l, i, k);
    }
    WalkLow(mem, mem[t][i].frame, l - 1, v, w);
  }

  /** And that page is mapped from the root on. */
  lemma {:induction false} MappedAbove(mem: Memory, root: nat, levels: map<nat, nat>, t: nat, v: nat) returns (w: nat)
    requires && IsTree(mem, root, levels) && IsTight(mem, root, levels, root) && t in levels
             && Walk(mem, t, levels[t], v).Some?
    ensures Walk(mem, root, 4, w).Some?
    decreases 4 - levels[t]
  {
    if t == root {
      w := v;
    } else {
      assert Reached(mem, levels, t);
      var s, i :| LeadsTo(mem, levels, s, i, t);
      var l := levels[s];
      var u := Turned(v, l, i);
      TurnedIndex(v, l, i, l);
      forall k | 1 <= k <= l - 1 ensures Index(u, k) == Index(v, k) {
        TurnedIndex(v, l, i, k);
      }
      WalkLow(mem, t, l - 1, u, v);
      w := MappedAbove(mem, root, levels, s, u);
    }
  }

  /** Once no page is mapped, only the root is left. */
  lemma OnlyRoot(mem: Memory, root: nat, levels: map<nat, nat>)
    requires Tree(mem, root, levels) && Tight(mem, root, levels, root) && forall v: nat :: Walk(mem, root, 4, v) == None
    ensures levels.Keys == {root}
  {
    TreeIs(mem, root, levels);
    TightIs(mem, root, levels, root);
    forall t | t in levels ensures t == root {
      if t != root {
        var v := MappedBelow(mem, root, levels, t);
        var w := MappedAbove(mem, root, levels, t, v);
        assert false;
      }
    }
  }
}
