/** Address spaces: mapping and unmapping pages in a tree of tables taken from the page allocator. */
module Paging {
  import BuddyMath
  import opened PageBitmap
  import opened PageTree

  /** Flags for the entries of each level. */
  datatype Flags = Flags(pml4: Entry, pdpt: Entry, pd: Entry, pt: Entry)

  /** Flags lie outside the frame number, and say "present". */
  predicate IsFlags(f: Entry) {
    f.frame == 0 && Present(f)
  }

  /** The entry maps a large page rather than leading to a table. */
  predicate IsLarge(e: Entry) {
    e.low / 128 % 2 == 1
  }

  /** The bytes that an entry of level l maps, if it maps a page. */
  function Span(l: nat): (n: nat)
    requires 1 <= l <= 3
    ensures n > 0
  {
    if l == 3 then 0x4000_0000 else if l == 2 then 0x20_0000 else PAGE_SIZE
  }

  /** An entry of level l that maps a page of more than 4 KiB. */
  predicate MapsLarge(e: Entry, l: nat) {
    2 <= l <= 3 && IsLarge(e)
  }

  /** The address that the processor comes to for v, from table t of level l on. */
  function Hardware(mem: Memory, t: nat, l: nat, v: nat): Option<nat>
    requires 1 <= l <= 4
    decreases l
  {
    if !IsTable(mem, t) || !Present(mem[t][Index(v, l)]) then None
    else
      var e := mem[t][Index(v, l)];
      if l == 1 || MapsLarge(e, l) then Some(e.frame * PAGE_SIZE + v % Span(l)) else Hardware(mem, e.frame, l - 1, v)
  }

  /** The size of the large page that the walk comes to; 0 if it comes to none. */
  function LargeSpan(mem: Memory, t: nat, l: nat, v: nat): nat
    requires 1 <= l <= 4
    decreases l
  {
    if !IsTable(mem, t) || !Present(mem[t][Index(v, l)]) then 0
    else
      var e := mem[t][Index(v, l)];
      if MapsLarge(e, l) then Span(l) else if l == 1 then 0 else LargeSpan(mem, e.frame, l - 1, v)
  }

  /** The place of v in a page of that size; 0 if there is no such page. */
  function OffsetIn(span: nat, v: nat): nat {
    if span == 0 then 0 else v % span
  }

  /** A table with one entry. */
  function TableOf(e: Entry): (t: seq<Entry>)
    ensures |t| == 512 && t[0] == e
  {
    seq(512, i => if i == 0 then e else EMPTY)
  }

  /** A page of 2 MiB at address 0: the processor takes the second byte of it for the second byte of its frame. */
  lemma LargePage()
    ensures var mem := map[1 := TableOf(Entry(0, 2, 1)), 2 := TableOf(Entry(0, 3, 1)),
                           3 := TableOf(Entry(0, 512, 129))];
            Hardware(mem, 1, 4, 1) == Some(0x20_0001) && OffsetIn(LargeSpan(mem, 1, 4, 1), 1) == 1
  {
    var mem := map[1 := TableOf(Entry(0, 2, 1)), 2 := TableOf(Entry(0, 3, 1)), 3 := TableOf(Entry(0, 512, 129))];
    assert Hardware(mem, 3, 2, 1) == Some(0x20_0001) && LargeSpan(mem, 3, 2, 1) == 0x20_0000;
    assert Hardware(mem, 2, 3, 1) == Some(0x20_0001) && LargeSpan(mem, 2, 3, 1) == 0x20_0000;
  }

  /** Where the walk goes there are tables. */
  predicate Readable(mem: Memory, t: nat, l: nat, v: nat)
    requires 1 <= l <= 4
    decreases l
  {
    IsTable(mem, t) &&
    (l == 1 || !Present(mem[t][Index(v, l)]) || MapsLarge(mem[t][Index(v, l)], l) ||
     Readable(mem, mem[t][Index(v, l)].frame, l - 1, v))
  }

  /** Without large pages the processor comes to what the tables translate the page to. */
  lemma {:induction false} HardwareWalks(mem: Memory, root: nat, levels: map<nat, nat>, t: nat, l: nat, v: nat)
    requires Tree(mem, root, levels) && Clear(mem, levels) && t in levels && levels[t] == l && 1 <= l <= 4
    ensures Readable(mem, t, l, v) && LargeSpan(mem, t, l, v) == 0
    ensures Hardware(mem, t, l, v) == match Walk(mem, t, l, v)
                                      case None => None
                                      case Some(n) => Some(n * PAGE_SIZE + v % PAGE_SIZE)
    decreases l
  {
    TreeFacts(mem, root, levels, t);
    var i := Index(v, l);
    if l > 1 {
      ClearEntry(mem, levels, t, i);
      if Present(mem[t][i]) {
        TreeLeads(mem, root, levels, t, i);
        HardwareWalks(mem, root, levels, mem[t][i].frame, l - 1, v);
      }
    } else if Present(mem[t][i]) {
      assert Walk(mem, t, l, v) == Walk(mem, mem[t][i].frame, 0, v);
    }
  }

  predicate UsableFlags(f: Flags) {
    && IsFlags(f.pml4) && IsFlags(f.pdpt) && IsFlags(f.pd) && IsFlags(f.pt) && !IsLarge(f.pml4) && !IsLarge(f.pdpt)
    && !IsLarge(f.pd)
  }

  /** An entry that led nowhere, and now leads to frame n. */
  function Linked(e: Entry, flags: Entry, n: nat): Entry {
    Or(Or(e, flags), Entry(0, n, 0))
  }

  /** An entry with its low flags replaced. */
  function Reflagged(e: Entry, flags: Entry): Entry {
    Or(e.(low := 0), flags)
  }

  lemma OrZero(x: nat)
    ensures BuddyMath.Or(0, x) == x && BuddyMath.Or(x, 0) == x
  {
    if x > 0 {
      OrZero(x / 2);
    }
  }

  lemma LinkedIs(flags: Entry, n: nat)
    requires IsFlags(flags)
    ensures Linked(EMPTY, flags, n) == flags.(frame := n)
  {
    OrZero(flags.high);
    OrZero(flags.low);
    OrZero(n);
  }

  /** Every bit of a is one of b. */
  predicate Within(a: nat, b: nat) {
    a == 0 || (a % 2 <= b % 2 && Within(a / 2, b / 2))
  }

  lemma {:induction false} OrWithin(a: nat, b: nat)
    ensures BuddyMath.Or(a, b) == b <==> Within(a, b)
  {
    if a > 0 {
      OrWithin(a / 2, b / 2);
    } else {
      OrZero(b);
    }
  }

  /** An entry marked absent keeps its frame number. Linking it again leads to frame n just when the bits of the old
      number are among those of n. */
  lemma LinkedAgain(e: Entry, flags: Entry, n: nat)
    requires IsFlags(flags)
    ensures Linked(Absent(e), flags, n).frame == n <==> Within(e.frame, n)
    ensures Linked(Absent(Entry(0, 1, 3)), flags, 2).frame == 3
  {
    OrZero(e.frame);
    OrZero(1);
    OrWithin(e.frame, n);
  }

  lemma ReflaggedIs(e: Entry, flags: Entry)
    requires IsFlags(flags)
    ensures Reflagged(e, flags).frame == e.frame && Reflagged(e, flags).low == flags.low && Present(Reflagged(e, flags))
  {
    OrZero(e.frame);
    OrZero(flags.low);
  }

  const PAGES := 0x10_0000_0000  // of a 48-bit address space

  /** The number of the page that an address is in. */
  function PageNo(v: nat): nat {
    v / PAGE_SIZE % PAGES
  }

  /** How many pages behind that of v the page of w is, around the end of the address space if need be. */
  function Distance(v: nat, w: nat): nat {
    (PageNo(w) - PageNo(v)) % PAGES
  }

  function PagesOf(size: nat): nat {
    (size + PAGE_SIZE - 1) / PAGE_SIZE
  }

  lemma PageCount(size: nat, k: nat)
    ensures PAGE_SIZE * k < size <==> k < PagesOf(size)
  {
  }

  lemma IndexQ(v: nat)
    ensures var q := v / 4096;
            && Index(v, 1) == q % 512 && Index(v, 2) == q / 512 % 512 && Index(v, 3) == q / 0x4_0000 % 512
            && Index(v, 4) == q / 0x800_0000 % 512
  {
  }

  /** Four digits to base 512 make up the page number. */
  lemma PageNoDigits(v: nat)
    ensures PageNo(v) == Index(v, 1) + 512 * Index(v, 2) + 0x4_0000 * Index(v, 3) + 0x800_0000 * Index(v, 4)
  {
    IndexQ(v);
    var q := v / 4096;
    var q1 := q / 512;
    var q2 := q1 / 512;
    var q3 := q2 / 512;
    assert q / 0x4_0000 == q2 && q / 0x800_0000 == q3;
    Digits(q % 512 + 512 * (q1 % 512) + 0x4_0000 * (q2 % 512) + 0x800_0000 * (q3 % 512), q3 / 512, q);
  }

  lemma Digits(low: nat, high: nat, q: nat)
    requires q == low + PAGES * high && low < PAGES
    ensures q % PAGES == low
  {
  }

  lemma SamePageNo(v: nat, w: nat)
    ensures SamePage(v, w) <==> PageNo(v) == PageNo(w)
  {
    PageNoDigits(v);
    PageNoDigits(w);
    if PageNo(v) == PageNo(w) {
      assert && Index(v, 1) == Index(w, 1) && Index(v, 2) == Index(w, 2) && Index(v, 3) == Index(w, 3)
             && Index(v, 4) == Index(w, 4);
    }
  }

  lemma PageAt(v: nat, k: nat, w: nat)
    requires k < PAGES
    ensures SamePage(v + PAGE_SIZE * k, w) <==> Distance(v, w) == k
  {
    SamePageNo(v + PAGE_SIZE * k, w);
    assert (v + PAGE_SIZE * k) / PAGE_SIZE == v / PAGE_SIZE + k;
    Around(v / PAGE_SIZE, k);
    Apart(PageNo(v), PageNo(w), k);
  }

  lemma Around(q: nat, k: nat)
    requires k < PAGES
    ensures var p := q % PAGES; (q + k) % PAGES == if p + k < PAGES then p + k else p + k - PAGES
  {
    var p, a := q % PAGES, q / PAGES;
    if p + k < PAGES {
      Digits(p + k, a, q + k);
    } else {
      Digits(p + k - PAGES, a + 1, q + k);
    }
  }

  lemma Apart(p: nat, r: nat, k: nat)
    requires p < PAGES && r < PAGES && k < PAGES
    ensures (if p + k < PAGES then p + k else p + k - PAGES) == r <==> (r - p) % PAGES == k
  {
    assert (r - p) % PAGES == if r >= p then r - p else r - p + PAGES;
  }

  /** From mem to mem' the n pages from v on have been mapped to the frames from `phys` on, where they were not mapped
      or overriding was asked for, and no other page is affected. The countdown only keeps proofs from looking inside
      where StretchIs is not called. */
  ghost predicate Stretch(mem: Memory, mem': Memory, root: nat, v: nat, phys: nat, n: nat, override_: bool) {
    StretchAfter(mem, mem', root, v, phys, n, override_, n)
  }

  ghost predicate OpenStretch(mem: Memory, mem': Memory, root: nat, v: nat, phys: nat, n: nat, override_: bool) {
    forall w: nat :: Walk(mem', root, 4, w) ==
      var k := Distance(v, w);
      if k < n && (override_ || Walk(mem, root, 4, w) == None) then Some(phys + k) else Walk(mem, root, 4, w)
  }

  ghost predicate StretchAfter(mem: Memory, mem': Memory, root: nat, v: nat, phys: nat, n: nat, override_: bool,
      countdown: nat) {
    if countdown > 0 then StretchAfter(mem, mem', root, v, phys, n, override_, countdown - 1)
    else OpenStretch(mem, mem', root, v, phys, n, override_)
  }

  lemma {:induction false} StretchAfterIs(mem: Memory, mem': Memory, root: nat, v: nat, phys: nat, n: nat,
      override_: bool, countdown: nat)
    ensures StretchAfter(mem, mem', root, v, phys, n, override_, countdown) <==>
              OpenStretch(mem, mem', root, v, phys, n, override_)
  {
    if countdown > 0 {
      StretchAfterIs(mem, mem', root, v, phys, n, override_, countdown - 1);
    }
  }

  lemma StretchIs(mem: Memory, mem': Memory, root: nat, v: nat, phys: nat, n: nat, override_: bool)
    ensures Stretch(mem, mem', root, v, phys, n, override_) <==> OpenStretch(mem, mem', root, v, phys, n, override_)
  {
    StretchAfterIs(mem, mem', root, v, phys, n, override_, n);
  }

  lemma StretchMore(mem: Memory, mem': Memory, mem'': Memory, root: nat, v: nat, phys: nat, k: nat, override_: bool)
    requires Stretch(mem, mem', root, v, phys, k, override_) && k < PAGES
    requires var u := v + PAGE_SIZE * k;
             forall w: nat :: Walk(mem'', root, 4, w) ==
               if SamePage(u, w) && (override_ || Walk(mem', root, 4, u) == None) then Some(phys + k)
               else Walk(mem', root, 4, w)
    ensures Stretch(mem, mem'', root, v, phys, k + 1, override_)
  {
    var u := v + PAGE_SIZE * k;
    StretchIs(mem, mem', root, v, phys, k, override_);
    StretchIs(mem, mem'', root, v, phys, k + 1, override_);
    forall w: nat ensures Walk(mem'', root, 4, w) ==
              var d := Distance(v, w);
              if d < k + 1 && (override_ || Walk(mem, root, 4, w) == None) then Some(phys + d)
              else Walk(mem, root, 4, w)
    {
      PageAt(v, k, w);
      if SamePage(u, w) {
        SameWalk(mem', root, 4, u, w);
      }
    }
  }

  /** Entries that lead nowhere are all zero, and there are no large pages. The countdown only keeps proofs from
      looking inside where ClearIs is not called. */
  ghost predicate Clear(mem: Memory, levels: map<nat, nat>) {
    ClearAfter(mem, levels, |levels|)
  }

  ghost predicate OpenClear(mem: Memory, levels: map<nat, nat>) {
    forall t, i :: t in levels && levels[t] > 1 && IsTable(mem, t) && 0 <= i < 512 ==>
      if Present(mem[t][i]) then !IsLarge(mem[t][i]) else mem[t][i] == EMPTY
  }

  ghost predicate ClearAfter(mem: Memory, levels: map<nat, nat>, countdown: nat) {
    if countdown > 0 then ClearAfter(mem, levels, countdown - 1) else OpenClear(mem, levels)
  }

  lemma {:induction false} ClearAfterIs(mem: Memory, levels: map<nat, nat>, countdown: nat)
    ensures ClearAfter(mem, levels, countdown) <==> OpenClear(mem, levels)
  {
    if countdown > 0 {
      ClearAfterIs(mem, levels, countdown - 1);
    }
  }

  lemma ClearIs(mem: Memory, levels: map<nat, nat>)
    ensures Clear(mem, levels) <==> OpenClear(mem, levels)
  {
    ClearAfterIs(mem, levels, |levels|);
  }

  lemma ClearEntry(mem: Memory, levels: map<nat, nat>, t: nat, i: nat)
    requires Clear(mem, levels) && t in levels && levels[t] > 1 && IsTable(mem, t) && i < 512
    ensures if Present(mem[t][i]) then !IsLarge(mem[t][i]) else mem[t][i] == EMPTY
  {
    ClearIs(mem, levels);
  }

  lemma ClearOther(mem: Memory, mem': Memory, levels: map<nat, nat>, n: nat)
    requires n !in levels && n in mem' && mem' == mem[n := mem'[n]]
    ensures Clear(mem, levels) ==> Clear(mem', levels)
  {
    ClearIs(mem, levels);
    ClearIs(mem', levels);
  }

  lemma ClearSet(mem: Memory, mem': Memory, levels: map<nat, nat>, s: nat, i: nat, e: Entry)
    requires Replaces(mem, mem', levels, s, i, e) && (levels[s] > 1 ==> Present(e) && !IsLarge(e))
    ensures Clear(mem, levels) ==> Clear(mem', levels)
  {
    ClearIs(mem, levels);
    ClearIs(mem', levels);
  }

  lemma ClearAdd(mem: Memory, mem': Memory, levels: map<nat, nat>, s: nat, i: nat, e: Entry)
    requires Clear(mem, levels) && Replaces(mem, mem', levels, s, i, e) && levels[s] > 1 && Present(e) && !IsLarge(e)
    requires e.frame !in levels && IsTable(mem', e.frame) && forall k :: 0 <= k < 512 ==> mem'[e.frame][k] == EMPTY
    ensures Clear(mem', levels[e.frame := levels[s] - 1])
  {
    ClearIs(mem, levels);
    ClearIs(mem', levels[e.frame := levels[s] - 1]);
  }

  /** The tables are among the first n pages, and not free. The countdown is as above. */
  ghost predicate Held(levels: map<nat, nat>, free: set<nat>, n: nat) {
    HeldAfter(levels, free, n, |levels|)
  }

  ghost predicate OpenHeld(levels: map<nat, nat>, free: set<nat>, n: nat) {
    forall t :: t in levels ==> t !in free && t < n
  }

  ghost predicate HeldAfter(levels: map<nat, nat>, free: set<nat>, n: nat, countdown: nat) {
    if countdown > 0 then HeldAfter(levels, free, n, countdown - 1) else OpenHeld(levels, free, n)
  }

  lemma {:induction false} HeldAfterIs(levels: map<nat, nat>, free: set<nat>, n: nat, countdown: nat)
    ensures HeldAfter(levels, free, n, countdown) <==> OpenHeld(levels, free, n)
  {
    if countdown > 0 {
      HeldAfterIs(levels, free, n, countdown - 1);
    }
  }

  lemma HeldIs(levels: map<nat, nat>, free: set<nat>, n: nat)
    ensures Held(levels, free, n) <==> OpenHeld(levels, free, n)
  {
    HeldAfterIs(levels, free, n, |levels|);
  }

  lemma HeldAt(levels: map<nat, nat>, free: set<nat>, n: nat, t: nat)
    requires Held(levels, free, n) && t in levels
    ensures t !in free && t < n
  {
    HeldIs(levels, free, n);
  }

  lemma HeldLess(levels: map<nat, nat>, free: set<nat>, n: nat, t: nat)
    requires Held(levels, free, n) && t in free
    ensures t !in levels && Held(levels, free - {t}, n)
  {
    HeldIs(levels, free, n);
    HeldIs(levels, free - {t}, n);
  }

  lemma HeldAdd(levels: map<nat, nat>, free: set<nat>, n: nat, t: nat, l: nat)
    requires Held(levels, free, n) && t !in free && t < n
    ensures Held(levels[t := l], free, n)
  {
    HeldIs(levels, free, n);
    HeldIs(levels[t := l], free, n);
  }

  lemma HeldDrop(levels: map<nat, nat>, free: set<nat>, n: nat, t: nat)
    requires Held(levels, free, n) && t in levels
    ensures Held(levels - {t}, free + {t}, n)
  {
    HeldIs(levels, free, n);
    HeldIs(levels - {t}, free + {t}, n);
  }

  /** f + k, with a countdown that only keeps proofs from looking inside where UnionIs is not called. */
  ghost function Union(f: set<nat>, k: set<nat>): set<nat> {
    UnionAfter(f, k, |f|)
  }

  ghost function UnionAfter(f: set<nat>, k: set<nat>, countdown: nat): set<nat> {
    if countdown > 0 then UnionAfter(f, k, countdown - 1) else f + k
  }

  lemma {:induction false} UnionAfterIs(f: set<nat>, k: set<nat>, countdown: nat)
    ensures UnionAfter(f, k, countdown) == f + k
  {
    if countdown > 0 {
      UnionAfterIs(f, k, countdown - 1);
    }
  }

  lemma UnionIs(f: set<nat>, k: set<nat>)
    ensures Union(f, k) == f + k
  {
    UnionAfterIs(f, k, |f|);
  }

  class Space {
    const root: nat  // the frame of the PML4
    const pages: Allocator
    var mem: Memory
    ghost var levels: map<nat, nat>

    ghost predicate Valid()
      reads this, pages, pages.bitmap, pages.bitmap.buffer
    {
      pages.Valid() && Tree(mem, root, levels) && Held(levels, pages.Free(), 8 * pages.bitmap.buffer.Length)
    }

    /** Entries that lead nowhere are all zero, and there are no large pages. */
    ghost predicate Clean()
      reads this
    {
      Clear(mem, levels)
    }

    /** The pages the allocator's search can find. */
    ghost function Ready(): set<nat>
      reads pages, pages.bitmap, pages.bitmap.buffer
    {
      set p | p in pages.Free() && p < pages.bitmap.Size()
    }

    /** No table but the root is empty or without an entry that leads to it. */
    ghost predicate Compact()
      reads this
    {
      Tight(mem, root, levels, root)
    }

    /** The pages that are free or hold a table. */
    ghost function Total(): set<nat>
      reads this, pages, pages.bitmap, pages.bitmap.buffer
    {
      Union(pages.Free(), levels.Keys)
    }

    /** Once no page is mapped, every page taken for a table is free again. */
    lemma AllGivenBack()
      requires Valid() && Compact() && forall v: nat :: Translation(v) == None
      ensures levels.Keys == {root} && pages.Free() == Total() - {root}
    {
      forall v: nat ensures Walk(mem, root, 4, v) == None {
        assert Translation(v) == None;
      }
      OnlyRoot(mem, root, levels);
      UnionIs(pages.Free(), levels.Keys);
      HeldAt(levels, pages.Free(), 8 * pages.bitmap.buffer.Length, root);
    }

    /** The frame that an address is mapped to. */
    ghost function Translation(v: nat): Option<nat>
      reads this
    {
      Walk(mem, root, 4, v)
    }

    /** A space with nothing mapped: a cleared PML4. */
    constructor (pages: Allocator, frame: nat, table: seq<Entry>)
      requires pages.Valid() && frame !in pages.Free() && frame < 8 * pages.bitmap.buffer.Length
      requires |table| == 512 && forall i :: 0 <= i < 512 ==> table[i] == EMPTY
      ensures Valid() && Clean() && Compact() && this.pages == pages && root == frame && levels.Keys == {root}
      ensures forall v :: Translation(v) == None
    {
      this.pages, root, mem, levels := pages, frame, map[frame := table], map[frame := 4];
      new;
      FreshTree(root, table);
      HeldIs(levels, pages.Free(), 8 * pages.bitmap.buffer.Length);
    }

    /** Takes a page for a table and clears it. */
    method NewTable() returns (n: nat)
      requires Valid() && Ready() != {}
      modifies this`mem, pages, pages.bitmap.buffer
      ensures Valid() && n !in levels && n !in pages.Free() && n < 8 * pages.bitmap.buffer.Length && IsEmpty(mem, n)
      ensures n in old(pages.Free()) && pages.Free() == old(pages.Free()) - {n} && Ready() == old(Ready()) - {n}
      ensures mem == old(mem)[n := mem[n]] && (old(Clean()) ==> Clean())
      ensures forall i :: 0 <= i < 512 ==> mem[n][i] == EMPTY
    {
      assert pages.Available() by {
        var p :| p in Ready();
      }
      var addr := pages.AllocatePage();
      n := addr / PAGE_SIZE;
      HeldLess(levels, old(pages.Free()), 8 * pages.bitmap.buffer.Length, n);
      mem := mem[n := seq(512, _ => EMPTY)];
      NotTouched(old(mem), mem, root, levels, n);
      ClearOther(old(mem), mem, levels, n);
    }

    /** The table that entry `virt` of table t, of level l, leads to: created if it leads nowhere, and its flags
        replaced if asked for. No translation changes. */
    method Enter(t: nat, l: nat, virt: nat, flags: Entry, override_: bool) returns (n: nat)
      requires && Valid() && Clean() && t in levels && levels[t] == l > 1 && IsFlags(flags) && !IsLarge(flags)
               && Ready() != {}
      requires Hits(mem, root, 4, virt, t, Index(virt, l))
      modifies this, pages, pages.bitmap.buffer
      ensures Valid() && Clean() && SameWalks(old(mem), mem, root)
      ensures n in levels && levels[n] == l - 1 && Hits(mem, root, 4, virt, n, Index(virt, l - 1))
      ensures Ready() == old(Ready()) || exists p :: Ready() == old(Ready()) - {p}
      ensures Total() == old(Total()) && (old(Tight(mem, root, levels, t)) ==> Tight(mem, root, levels, n))
    {
      var i := Index(virt, l);
      TreeFacts(mem, root, levels, t);
      var e := mem[t][i];
      if !Present(e) {
        n := EnterNew(t, l, virt, flags);
      } else {
        n := e.frame;
        EnterOld(t, l, virt, flags, override_, n);
      }
      NextHit(mem, root, levels, virt, t);
    }

    method EnterNew(t: nat, l: nat, virt: nat, flags: Entry) returns (n: nat)
      requires && Valid() && Clean() && t in levels && levels[t] == l > 1 && IsTable(mem, t)
               && !Present(mem[t][Index(virt, l)])
      requires IsFlags(flags) && !IsLarge(flags) && Ready() != {} && Hits(mem, root, 4, virt, t, Index(virt, l))
      modifies this, pages, pages.bitmap.buffer
      ensures Valid() && Clean() && SameWalks(old(mem), mem, root) && Total() == old(Total())
      ensures n in levels && levels[n] == l - 1 && t in levels && levels[t] == l && IsTable(mem, t)
      ensures Present(mem[t][Index(virt, l)]) && mem[t][Index(virt, l)].frame == n
      ensures Hits(mem, root, 4, virt, t, Index(virt, l)) && Ready() == old(Ready()) - {n}
      ensures old(Tight(mem, root, levels, t)) ==> Tight(mem, root, levels, n)
    {
      n := Create(t, Index(virt, l), flags);
      TotalTaken(old(pages.Free()), old(levels), n, l - 1);
      StillHit(old(mem), mem, root, old(levels), virt, t, Index(virt, l));
    }

    method EnterOld(t: nat, l: nat, virt: nat, flags: Entry, override_: bool, ghost n: nat)
      requires && Valid() && Clean() && t in levels && levels[t] == l > 1 && IsTable(mem, t)
               && Present(mem[t][Index(virt, l)])
      requires && n == mem[t][Index(virt, l)].frame && IsFlags(flags) && !IsLarge(flags)
               && Hits(mem, root, 4, virt, t, Index(virt, l))
      modifies this`mem
      ensures Valid() && Clean() && SameWalks(old(mem), mem, root)
      ensures n in levels && levels[n] == l - 1 && IsTable(mem, t)
      ensures && Present(mem[t][Index(virt, l)]) && mem[t][Index(virt, l)].frame == n
              && Hits(mem, root, 4, virt, t, Index(virt, l))
      ensures old(Tight(mem, root, levels, t)) ==> Tight(mem, root, levels, n)
    {
      TreeLeads(mem, root, levels, t, Index(virt, l));
      NotSpare(mem, root, levels, t, Index(virt, l), n);
      if override_ {
        Reflag(t, Index(virt, l), flags, n);
        StillHit(old(mem), mem, root, levels, virt, t, Index(virt, l));
      }
    }

    method Create(t: nat, i: nat, flags: Entry) returns (n: nat)
      requires && Valid() && Clean() && t in levels && levels[t] > 1 && IsTable(mem, t) && i < 512
               && !Present(mem[t][i]) && IsFlags(flags) && !IsLarge(flags) && Ready() != {}
      modifies this, pages, pages.bitmap.buffer
      ensures Valid() && Clean() && SameWalks(old(mem), mem, root)
      ensures && n !in old(levels) && levels == old(levels)[n := old(levels)[t] - 1] && IsTable(mem, t)
              && Present(mem[t][i]) && mem[t][i].frame == n
      ensures Replaces(old(mem), mem, old(levels), t, i, mem[t][i]) && Ready() == old(Ready()) - {n}
      ensures n in old(pages.Free()) && pages.Free() == old(pages.Free()) - {n}
      ensures old(Tight(mem, root, levels, t)) ==> Tight(mem, root, levels, n)
    {
      n := NewTable();
      Hang(t, i, flags, n, old(mem));
    }

    /** Lets entry i of table t lead to the cleared page n. */
    method Hang(t: nat, i: nat, flags: Entry, n: nat, ghost was: Memory)
      requires && Valid() && Clean() && t in levels && levels[t] > 1 && IsTable(mem, t) && i < 512
               && !Present(mem[t][i]) && IsFlags(flags) && !IsLarge(flags)
      requires && n !in levels && n !in pages.Free() && n < 8 * pages.bitmap.buffer.Length && n in mem
               && |mem[n]| == 512
               && forall k :: 0 <= k < 512 ==> mem[n][k] == EMPTY
      requires Tree(was, root, levels) && Clear(was, levels) && mem == was[n := mem[n]]
      modifies this`mem, this`levels
      ensures Valid() && Clean() && SameWalks(was, mem, root)
      ensures && levels == old(levels)[n := old(levels)[t] - 1] && IsTable(mem, t) && Present(mem[t][i])
              && mem[t][i].frame == n
      ensures Replaces(was, mem, old(levels), t, i, mem[t][i])
      ensures Tight(was, root, old(levels), t) ==> Tight(mem, root, levels, n)
    {
      LinkedIs(flags, n);
      ClearEntry(mem, levels, t, i);
      TreeIs(was, root, levels);
      var e := Linked(mem[t][i], flags, n);
      mem := mem[t := mem[t][i := e]];
      Hung(was, mem, root, levels, t, i, e);
      HeldAdd(levels, pages.Free(), 8 * pages.bitmap.buffer.Length, n, levels[t] - 1);
      levels := levels[n := levels[t] - 1];
    }

    method Reflag(t: nat, i: nat, flags: Entry, ghost x: nat)
      requires && Valid() && Clean() && t in levels && IsTable(mem, t) && i < 512 && Present(mem[t][i])
               && IsFlags(flags) && !IsLarge(flags)
      modifies this`mem
      ensures Valid() && Clean() && SameWalks(old(mem), mem, root)
      ensures && IsTable(mem, t) && Present(mem[t][i]) && mem[t][i].frame == old(mem[t][i]).frame
              && Replaces(old(mem), mem, levels, t, i, mem[t][i])
      ensures x != t && old(Tight(mem, root, levels, x)) ==> Tight(mem, root, levels, x)
    {
      ReflaggedIs(mem[t][i], flags);
      TreeIs(mem, root, levels);
      var e := Reflagged(mem[t][i], flags);
      mem := mem[t := mem[t][i := e]];
      RefreshEntry(old(mem), mem, root, levels, t, i, e);
      ClearSet(old(mem), mem, levels, t, i, e);
      if Tight(old(mem), root, levels, x) { TightSet(old(mem), mem, root, levels, t, i, e, x); }
      TreeIs(mem, root, levels);
    }

    /** pagingMapPageInSpace: the page of `virt` is mapped to frame `phys` if it was not mapped or overriding is asked
        for. No other page is affected. */
    method Map(virt: nat, phys: nat, flags: Flags, override_: bool)
      requires Valid() && Clean() && |Ready()| >= 3
      requires UsableFlags(flags)
      modifies this, pages, pages.bitmap.buffer
      ensures && Valid() && Clean() && |Ready()| >= |old(Ready())| - 3 && Total() == old(Total())
              && (old(Compact()) ==> Compact())
      ensures forall w: nat :: Translation(w) ==
                if SamePage(virt, w) && (override_ || old(Translation(virt)) == None) then Some(phys)
                else old(Translation(w))
    {
      var pt := EnterAll(virt, flags, override_);
      SetPage(pt, virt, phys, flags.pt, override_);
    }

    /** The page table for `virt`, through tables that are created as needed. */
    method EnterAll(virt: nat, flags: Flags, override_: bool) returns (pt: nat)
      requires Valid() && Clean() && |Ready()| >= 3
      requires UsableFlags(flags)
      modifies this, pages, pages.bitmap.buffer
      ensures Valid() && Clean() && |Ready()| >= |old(Ready())| - 3 && SameWalks(old(mem), mem, root)
      ensures pt in levels && levels[pt] == 1 && Hits(mem, root, 4, virt, pt, Index(virt, 1))
      ensures Total() == old(Total()) && (old(Compact()) ==> Tight(mem, root, levels, pt))
    {
      ghost var m0, r0 := mem, Ready();
      TreeFacts(mem, root, levels, root);
      var pdpt := Enter(root, 4, virt, flags.pml4, override_);
      ghost var m1, r1 := mem, Ready();
      OneLess(r0, r1);
      var pd := Enter(pdpt, 3, virt, flags.pdpt, override_);
      ghost var m2, r2 := mem, Ready();
      OneLess(r1, r2);
      SameTwice(m0, m1, m2, root);
      pt := Enter(pd, 2, virt, flags.pd, override_);
      OneLess(r2, Ready());
      SameTwice(m0, m2, mem, root);
    }

    /** The last step: the entry of the page itself. */
    method SetPage(pt: nat, virt: nat, phys: nat, flags: Entry, override_: bool)
      requires && Valid() && Clean() && pt in levels && levels[pt] == 1
               && Hits(mem, root, 4, virt, pt, Index(virt, 1)) && IsFlags(flags)
      modifies this`mem
      ensures Valid() && Clean() && (old(Tight(mem, root, levels, pt)) ==> Compact())
      ensures forall w: nat :: Translation(w) ==
                if SamePage(virt, w) && (override_ || old(Translation(virt)) == None) then Some(phys)
                else old(Translation(w))
    {
      var i := Index(virt, 1);
      TreeFacts(mem, root, levels, pt);
      TreeIs(mem, root, levels);
      var pte := mem[pt][i];
      LinkedIs(flags, phys);
      ghost var m := mem;
      if !Present(pte) || override_ {
        pte := Linked(EMPTY, flags, phys);
        mem := mem[pt := mem[pt][i := pte]];
        SetLeaf(m, mem, root, levels, pt, virt, pte);
        ClearSet(m, mem, levels, pt, i, pte);
        if Tight(m, root, levels, pt) { TightSet(m, mem, root, levels, pt, i, pte, pt); }
        TreeIs(mem, root, levels);
      } else {
        NotSpare(mem, root, levels, pt, i, root);
        SetLeaf(m, mem, root, levels, pt, virt, pte);
        assert mem[pt][i := pte] == mem[pt];
      }
    }

    /** One more page of a stretch. */
    method MapNext(virt: nat, phys: nat, k: nat, flags: Flags, override_: bool, ghost was: Memory)
      requires && Valid() && Clean() && UsableFlags(flags) && |Ready()| >= 3 && k < PAGES
               && Stretch(was, mem, root, virt, phys, k, override_)
      modifies this, pages, pages.bitmap.buffer
      ensures && Valid() && Clean() && |Ready()| >= |old(Ready())| - 3 && Total() == old(Total())
              && (old(Compact()) ==> Compact())
      ensures Stretch(was, mem, root, virt, phys, k + 1, override_)
    {
      ghost var m := mem;
      Map(virt + PAGE_SIZE * k, phys + k, flags, override_);
      StretchMore(was, m, mem, root, virt, phys, k, override_);
    }

    /** pagingMapMemoryInTable: the pages from `virt` on are mapped to the frames from `phys` on, as many as `size`
        bytes touch, each under the condition of Map. No other page is affected. */
    method MapMemory(virt: nat, phys: nat, size: nat, flags: Flags, override_: bool)
      requires Valid() && Clean() && UsableFlags(flags)
      requires size <= PAGE_SIZE * PAGES && 3 * PagesOf(size) <= |Ready()|
      modifies this, pages, pages.bitmap.buffer
      ensures Valid() && Clean() && Total() == old(Total()) && (old(Compact()) ==> Compact())
      ensures Stretch(old(mem), mem, root, virt, phys, PagesOf(size), override_)
    {
      var offset, k := 0, 0;
      ghost var n := PagesOf(size);
      PageCount(size, PAGES);
      PageCount(size, 0);
      StretchIs(mem, mem, root, virt, phys, 0, override_);
      while offset < size
        invariant offset == PAGE_SIZE * k && k <= n && (offset < size <==> k < n)
        invariant Valid() && Clean() && |Ready()| + 3 * k >= 3 * n
        invariant Stretch(old(mem), mem, root, virt, phys, k, override_)
        invariant Total() == old(Total()) && (old(Compact()) ==> Compact())
      {
        PageCount(size, k + 1);
        MapNext(virt, phys, k, flags, override_, old(mem));
        offset := offset + PAGE_SIZE;
        k := k + 1;
      }
    }

    /** pagingVirtualToPhysical: the address that `virt` is mapped to, 0 if it is not; in a large page only the
        address of the page. */
    method VirtualToPhysical(virt: nat) returns (addr: nat)
      requires Readable(mem, root, 4, virt)
      ensures addr == match Hardware(mem, root, 4, virt)
                      case None => 0
                      case Some(a) => a - OffsetIn(LargeSpan(mem, root, 4, virt), virt)
      ensures Hardware(mem, root, 4, virt).Some? ==>
                (addr == Hardware(mem, root, 4, virt).value <==> OffsetIn(LargeSpan(mem, root, 4, virt), virt) == 0)
      ensures Valid() && Clean() ==>
                addr == if Translation(virt).Some? then Translation(virt).value * PAGE_SIZE + virt % PAGE_SIZE else 0
    {
      if Valid() && Clean() {
        TreeFacts(mem, root, levels, root);
        HardwareWalks(mem, root, levels, root, 4, virt);
      }
      var pml4e := mem[root][Index(virt, 4)];
      if !Present(pml4e) { return 0; }
      var pdpt := pml4e.frame;
      var pdpte := mem[pdpt][Index(virt, 3)];
      if !Present(pdpte) { return 0; }
      if IsLarge(pdpte) { return pdpte.frame * PAGE_SIZE; }
      var pd := pdpte.frame;
      var pde := mem[pd][Index(virt, 2)];
      if !Present(pde) { return 0; }
      if IsLarge(pde) { return pde.frame * PAGE_SIZE; }
      var pt := pde.frame;
      var pte := mem[pt][Index(virt, 1)];
      if !Present(pte) { return 0; }
      addr := pte.frame * PAGE_SIZE + virt % PAGE_SIZE;
    }

    // Unmapping.

    /** pagingIsPagetableEmpty, with the scan from the first entry. */
    method TableEmpty(t: nat) returns (empty: bool)
      requires IsTable(mem, t)
      ensures empty <==> IsEmpty(mem, t)
    {
      var i := 0;
      while i < 512
        invariant 0 <= i <= 512
        invariant forall k :: 0 <= k < i ==> !Present(mem[t][k])
      {
        if Present(mem[t][i]) {
          return false;
        }
        i := i + 1;
      }
      return true;
    }

    /** Gives the emptied table back that entry i of table s leads to, and marks the entry absent. No translation
        changes. */
    method Drop(s: nat, i: nat)
      requires Valid() && i < 512 && Leads(mem, levels, s, i) && IsEmpty(mem, mem[s][i].frame)
      modifies this, pages, pages.bitmap.buffer
      ensures Valid() && SameWalks(old(mem), mem, root)
      ensures old(mem[s][i]).frame in old(levels) && levels == old(levels) - {old(mem[s][i]).frame}
      ensures levels.Keys <= old(levels).Keys && pages.Free() == old(pages.Free()) + (old(levels).Keys - levels.Keys)
      ensures IsTable(mem, s) && mem == old(mem)[s := mem[s]]
      ensures old(Tight(mem, root, levels, mem[s][i].frame)) ==> Tight(mem, root, levels, s)
    {
      var e := mem[s][i];
      TreeIs(mem, root, levels);
      HeldAt(levels, pages.Free(), 8 * pages.bitmap.buffer.Length, e.frame);
      HeldDrop(levels, pages.Free(), 8 * pages.bitmap.buffer.Length, e.frame);
      assert e.frame * PAGE_SIZE / PAGE_SIZE == e.frame;
      pages.FreePage(e.frame * PAGE_SIZE);
      mem := mem[s := mem[s][i := Absent(e)]];
      DropTable(old(mem), mem, root, levels, s, i, Absent(e));
      if Tight(old(mem), root, levels, e.frame) { TightDrop(old(mem), mem, root, levels, s, i, Absent(e)); }
      KeysLess(levels, e.frame);
      levels := levels - {e.frame};
      TreeIs(mem, root, levels);
    }

    /** The tables on the way to the page of `virt`, if it is mapped. */
    method Find(virt: nat) returns (found: bool, pdpt: nat, pd: nat, pt: nat)
      requires Valid()
      ensures !found ==> Translation(virt) == None
      ensures found ==> Leads(mem, levels, root, Index(virt, 4)) && mem[root][Index(virt, 4)].frame == pdpt
      ensures found ==>
                Leads(mem, levels, pdpt, Index(virt, 3)) && mem[pdpt][Index(virt, 3)].frame == pd && levels[pdpt] == 3
      ensures found ==> Leads(mem, levels, pd, Index(virt, 2)) && mem[pd][Index(virt, 2)].frame == pt && levels[pd] == 2
      ensures found ==>
                && pt in levels && levels[pt] == 1 && IsTable(mem, pt) && Present(mem[pt][Index(virt, 1)])
                && Hits(mem, root, 4, virt, pt, Index(virt, 1))
    {
      found, pdpt, pd, pt := false, 0, 0, 0;
      TreeIs(mem, root, levels);
      if !Present(mem[root][Index(virt, 4)]) { return; }
      assert Leads(mem, levels, root, Index(virt, 4));
      pdpt := mem[root][Index(virt, 4)].frame;
      if !Present(mem[pdpt][Index(virt, 3)]) { return; }
      assert Leads(mem, levels, pdpt, Index(virt, 3));
      pd := mem[pdpt][Index(virt, 3)].frame;
      if !Present(mem[pd][Index(virt, 2)]) { return; }
      assert Leads(mem, levels, pd, Index(virt, 2));
      pt := mem[pd][Index(virt, 2)].frame;
      assert Hits(mem, pt, 1, virt, pt, Index(virt, 1));
      assert Hits(mem, pd, 2, virt, pt, Index(virt, 1));
      found := Present(mem[pt][Index(virt, 1)]);
    }

    /** Marks the page of `virt` absent. */
    method ClearPage(pt: nat, virt: nat)
      requires Valid() && pt in levels && levels[pt] == 1 && Hits(mem, root, 4, virt, pt, Index(virt, 1))
      modifies this`mem
      ensures Valid() && IsTable(mem, pt) && mem == old(mem)[pt := mem[pt]] && (old(Clean()) ==> Clean())
      ensures old(Compact()) ==> Tight(mem, root, levels, pt)
      ensures forall w: nat :: Translation(w) == if SamePage(virt, w) then None else old(Translation(w))
    {
      TreeIs(mem, root, levels);
      var e := Absent(mem[pt][Index(virt, 1)]);
      mem := mem[pt := mem[pt][Index(virt, 1) := e]];
      SetLeaf(old(mem), mem, root, levels, pt, virt, e);
      ClearSet(old(mem), mem, levels, pt, Index(virt, 1), e);
      if Tight(old(mem), root, levels, root) { TightClear(old(mem), mem, root, levels, pt, Index(virt, 1), e); }
      TreeIs(mem, root, levels);
    }

    /** pagingUnmapPageInSpace: the frame the page was mapped to, 0 if it was not. The page is mapped no longer and no
        other is affected; each table that has become empty is given back, once. */
    method Unmap(virt: nat) returns (frame: nat)
      requires Valid()
      modifies this, pages, pages.bitmap.buffer
      ensures Valid()
      ensures frame == if old(Translation(virt)).Some? then old(Translation(virt)).value else 0
      ensures forall w: nat :: Translation(w) == if SamePage(virt, w) then None else old(Translation(w))
      ensures levels.Keys <= old(levels).Keys && pages.Free() == old(pages.Free()) + (old(levels).Keys - levels.Keys)
      ensures && Total() == old(Total()) && (old(Compact()) ==> Compact())
              && (levels == old(levels) && old(Clean()) ==> Clean())
    {
      frame := 0;
      var found, pdpt, pd, pt := Find(virt);
      if found {
        Mapped(mem, root, levels, pt, virt);
        frame := mem[pt][Index(virt, 1)].frame;
        Release(virt, pdpt, pd, pt);
        TotalKept(old(pages.Free()), pages.Free(), old(levels).Keys, levels.Keys);
      } else {
        forall w: nat | SamePage(virt, w) ensures Translation(w) == None {
          SameWalk(mem, root, 4, virt, w);
        }
      }
    }

    /** Marks the page absent, then gives back what is empty. */
    method Release(virt: nat, pdpt: nat, pd: nat, pt: nat)
      requires Valid()
      requires Leads(mem, levels, root, Index(virt, 4)) && mem[root][Index(virt, 4)].frame == pdpt
      requires Leads(mem, levels, pdpt, Index(virt, 3)) && mem[pdpt][Index(virt, 3)].frame == pd && levels[pdpt] == 3
      requires Leads(mem, levels, pd, Index(virt, 2)) && mem[pd][Index(virt, 2)].frame == pt && levels[pd] == 2
      requires pt in levels && levels[pt] == 1 && Hits(mem, root, 4, virt, pt, Index(virt, 1))
      modifies this, pages, pages.bitmap.buffer
      ensures Valid()
      ensures forall w: nat :: Translation(w) == if SamePage(virt, w) then None else old(Translation(w))
      ensures levels.Keys <= old(levels).Keys && pages.Free() == old(pages.Free()) + (old(levels).Keys - levels.Keys)
      ensures (old(Compact()) ==> Compact()) && (levels == old(levels) && old(Clean()) ==> Clean())
    {
      TreeFacts(mem, root, levels, root);
      ClearPage(pt, virt);
      DropEmpty(virt, pdpt, pd, pt);
    }

    /** Gives back the tables on the way to `virt` that are empty, from the page table up. */
    method DropEmpty(virt: nat, pdpt: nat, pd: nat, pt: nat)
      requires Valid()
      requires Leads(mem, levels, root, Index(virt, 4)) && mem[root][Index(virt, 4)].frame == pdpt
      requires Leads(mem, levels, pdpt, Index(virt, 3)) && mem[pdpt][Index(virt, 3)].frame == pd && levels[pdpt] == 3
      requires Leads(mem, levels, pd, Index(virt, 2)) && mem[pd][Index(virt, 2)].frame == pt && levels[pd] == 2
      modifies this, pages, pages.bitmap.buffer
      ensures Valid() && SameWalks(old(mem), mem, root)
      ensures levels.Keys <= old(levels).Keys && pages.Free() == old(pages.Free()) + (old(levels).Keys - levels.Keys)
      ensures old(Tight(mem, root, levels, pt)) ==> Compact()
      ensures levels == old(levels) ==> mem == old(mem)
    {
      TreeLeads(mem, root, levels, pd, Index(virt, 2));
      TreeFacts(mem, root, levels, pt);
      var empty := TableEmpty(pt);
      if empty {
        ghost var m, k, f := mem, levels, pages.Free();
        Drop(pd, Index(virt, 2));
        StillLeads(m, mem, k, levels, root, Index(virt, 4), pd, pt);
        StillLeads(m, mem, k, levels, pdpt, Index(virt, 3), pd, pt);
        empty := TableEmpty(pd);
        if empty {
          ghost var m', k', f' := mem, levels, pages.Free();
          DropUpper(virt, pdpt, pd);
          SameTwice(m, m', mem, root);
          GivenBack(f, f', pages.Free(), k.Keys, k'.Keys, levels.Keys);
        } else if Tight(mem, root, levels, pd) {
          NotKept(mem, root, levels, pd);
        }
      } else if Tight(mem, root, levels, pt) {
        NotKept(mem, root, levels, pt);
      }
    }

    method DropUpper(virt: nat, pdpt: nat, pd: nat)
      requires Valid() && IsEmpty(mem, pd)
      requires Leads(mem, levels, root, Index(virt, 4)) && mem[root][Index(virt, 4)].frame == pdpt
      requires Leads(mem, levels, pdpt, Index(virt, 3)) && mem[pdpt][Index(virt, 3)].frame == pd && levels[pdpt] == 3
      modifies this, pages, pages.bitmap.buffer
      ensures Valid() && SameWalks(old(mem), mem, root)
      ensures levels.Keys <= old(levels).Keys && pages.Free() == old(pages.Free()) + (old(levels).Keys - levels.Keys)
      ensures old(Tight(mem, root, levels, pd)) ==> Compact()
    {
      TreeLeads(mem, root, levels, pdpt, Index(virt, 3));
      TreeFacts(mem, root, levels, root);
      ghost var m, k, f := mem, levels, pages.Free();
      Drop(pdpt, Index(virt, 3));
      StillLeads(m, mem, k, levels, root, Index(virt, 4), pdpt, pd);
      var empty := TableEmpty(pdpt);
      if empty {
        ghost var m', k', f' := mem, levels, pages.Free();
        Drop(root, Index(virt, 4));
        SameTwice(m, m', mem, root);
        GivenBack(f, f', pages.Free(), k.Keys, k'.Keys, levels.Keys);
      } else if Tight(mem, root, levels, pdpt) {
        NotKept(mem, root, levels, pdpt);
      }
    }
  }

  /** Table t is not empty: so none need be but any other. */
  lemma NotSpare(mem: Memory, root: nat, levels: map<nat, nat>, t: nat, i: nat, x: nat)
    requires IsTable(mem, t) && i < 512 && Present(mem[t][i])
    ensures Tight(mem, root, levels, t) ==> Tight(mem, root, levels, x)
  {
    if Tight(mem, root, levels, t) {
      NotKept(mem, root, levels, t);
      TightAnyway(mem, root, levels, x);
    }
  }

  /** An entry without the present bit. */
  function Absent(e: Entry): (r: Entry)
    ensures !Present(r)
  {
    e.(low := e.low - e.low % 2)
  }

  lemma {:induction false} SameWalk(mem: Memory, t: nat, l: nat, v: nat, w: nat)
    requires SamePage(v, w) && l <= 4
    ensures Walk(mem, t, l, v) == Walk(mem, t, l, w)
    decreases l
  {
    if l > 0 && IsTable(mem, t) && Present(mem[t][Index(v, l)]) {
      SameWalk(mem, mem[t][Index(v, l)].frame, l - 1, v, w);
    }
  }

  lemma Mapped(mem: Memory, root: nat, levels: map<nat, nat>, pt: nat, v: nat)
    requires && Tree(mem, root, levels) && pt in levels && levels[pt] == 1 && IsTable(mem, pt)
             && Present(mem[pt][Index(v, 1)]) && Hits(mem, root, 4, v, pt, Index(v, 1))
    ensures Walk(mem, root, 4, v) == Some(mem[pt][Index(v, 1)].frame)
  {
    var e := mem[pt][Index(v, 1)];
    TreeIs(mem, root, levels);
    assert mem[pt][Index(v, 1) := e] == mem[pt];
    SetLeaf(mem, mem, root, levels, pt, v, e);
  }

  lemma StillLeads(mem: Memory, mem': Memory, levels: map<nat, nat>, levels': map<nat, nat>, t: nat, i: nat, s: nat,
      n: nat)
    requires && Leads(mem, levels, t, i) && t != s && t != n && s in mem' && mem' == mem[s := mem'[s]]
             && levels' == levels - {n}
    ensures Leads(mem', levels', t, i) && mem'[t][i] == mem[t][i] && levels'[t] == levels[t]
  {
  }

  lemma GivenBack(f: set<nat>, f': set<nat>, f'': set<nat>, k: set<nat>, k': set<nat>, k'': set<nat>)
    requires k'' <= k' <= k && f' == f + (k - k') && f'' == f' + (k' - k'')
    ensures k'' <= k && f'' == f + (k - k'')
  {
  }

  lemma FreshTree(root: nat, table: seq<Entry>)
    requires |table| == 512 && forall i :: 0 <= i < 512 ==> table[i] == EMPTY
    ensures var mem, levels := map[root := table], map[root := 4];
            && Tree(mem, root, levels) && Tight(mem, root, levels, root) && Clear(mem, levels)
            && forall v :: Walk(mem, root, 4, v) == None
  {
    var mem, levels := map[root := table], map[root := 4];
    FreshParts(root, mem, levels);
    TreeIs(mem, root, levels);
    TightIs(mem, root, levels, root);
    ClearIs(mem, levels);
  }

  lemma FreshParts(root: nat, mem: Memory, levels: map<nat, nat>)
    requires levels == map[root := 4] && IsTable(mem, root) && forall i :: 0 <= i < 512 ==> mem[root][i] == EMPTY
    ensures IsTree(mem, root, levels) && IsTight(mem, root, levels, root) && OpenClear(mem, levels)
    ensures forall v :: Walk(mem, root, 4, v) == None
  {
    forall t, i ensures !Leads(mem, levels, t, i) {
    }
    forall v ensures Walk(mem, root, 4, v) == None {
      assert mem[root][Index(v, 4)] == EMPTY;
    }
  }

  lemma TotalTaken(f: set<nat>, levels: map<nat, nat>, n: nat, l: nat)
    requires n in f
    ensures Union(f - {n}, levels[n := l].Keys) == Union(f, levels.Keys)
  {
    UnionIs(f - {n}, levels[n := l].Keys);
    UnionIs(f, levels.Keys);
    assert levels[n := l].Keys == levels.Keys + {n};
  }

  lemma KeysLess(levels: map<nat, nat>, n: nat)
    requires n in levels
    ensures (levels - {n}).Keys <= levels.Keys && levels.Keys - (levels - {n}).Keys == {n}
  {
    assert (levels - {n}).Keys == levels.Keys - {n};
  }

  /** Pages given back are free where they held a table. */
  lemma TotalKept(f: set<nat>, f': set<nat>, k: set<nat>, k': set<nat>)
    requires k' <= k && f' == f + (k - k')
    ensures Union(f', k') == Union(f, k)
  {
    UnionIs(f', k');
    UnionIs(f, k);
  }

  /** A cleared page hung into an entry that led nowhere. */
  lemma Hung(mem: Memory, mem': Memory, root: nat, levels: map<nat, nat>, s: nat, i: nat, e: Entry)
    requires && Tree(mem, root, levels) && Clear(mem, levels) && Replaces(mem, mem', levels, s, i, e) && levels[s] > 1
             && !Present(mem[s][i])
    requires && Present(e) && !IsLarge(e) && e.frame !in levels && IsTable(mem', e.frame)
             && forall k :: 0 <= k < 512 ==> mem'[e.frame][k] == EMPTY
    ensures var levels' := levels[e.frame := levels[s] - 1];
            && Tree(mem', root, levels') && Clear(mem', levels') && SameWalks(mem, mem', root)
            && (Tight(mem, root, levels, s) ==> Tight(mem', root, levels', e.frame))
  {
    TreeIs(mem, root, levels);
    AddTable(mem, mem', root, levels, s, i, e);
    TreeIs(mem', root, levels[e.frame := levels[s] - 1]);
    ClearAdd(mem, mem', levels, s, i, e);
    if Tight(mem, root, levels, s) {
      TightAdd(mem, mem', root, levels, s, i, e);
    }
  }

  lemma StillHit(mem: Memory, mem': Memory, root: nat, levels: map<nat, nat>, v: nat, s: nat, i: nat)
    requires && Tree(mem, root, levels) && IsTable(mem', s) && i < 512
             && Replaces(mem, mem', levels, s, i, mem'[s][i]) && Hits(mem, root, 4, v, s, i)
    ensures Hits(mem', root, 4, v, s, i)
  {
    TreeIs(mem, root, levels);
    HitsReplaced(mem, mem', root, levels, root, 4, v, s, i, mem'[s][i]);
  }

  lemma NextHit(mem: Memory, root: nat, levels: map<nat, nat>, v: nat, s: nat)
    requires Tree(mem, root, levels) && s in levels && levels[s] > 1 && IsTable(mem, s)
    requires Hits(mem, root, 4, v, s, Index(v, levels[s])) && Present(mem[s][Index(v, levels[s])])
    ensures Hits(mem, root, 4, v, mem[s][Index(v, levels[s])].frame, Index(v, levels[s] - 1))
  {
    TreeIs(mem, root, levels);
    HitsNext(mem, root, levels, root, 4, v, s);
  }

  lemma OneLess(s: set<nat>, s': set<nat>)
    requires s' == s || exists p :: s' == s - {p}
    ensures |s'| >= |s| - 1
  {
    if s' != s {
      var p :| s' == s - {p};
      assert s <= s' + {p};
      Smaller(s, s' + {p});
    }
  }

  lemma Smaller(s: set<nat>, t: set<nat>)
    requires s <= t
    ensures |s| <= |t|
  {
    assert t == s + (t - s);
  }

  lemma SameTwice(m0: Memory, m1: Memory, m2: Memory, root: nat)
    requires SameWalks(m0, m1, root) && SameWalks(m1, m2, root)
    ensures SameWalks(m0, m2, root)
  {
  }

  /** Clearing a page that is no table leaves the tree as it was. */
  lemma NotTouched(mem: Memory, mem': Memory, root: nat, levels: map<nat, nat>, n: nat)
    requires Tree(mem, root, levels) && n !in levels && n in mem' && mem' == mem[n := mem'[n]]
    ensures Tree(mem', root, levels)
  {
    TreeIs(mem, root, levels);
    TreeIs(mem', root, levels);
    forall t, k | Leads(mem', levels, t, k) ensures Leads(mem, levels, t, k) && mem'[t][k] == mem[t][k] {
    }
  }
}
