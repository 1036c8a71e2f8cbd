/** The allocator of virtual address ranges: linked headers in memory; first fit, splitting, joining free neighbours. */
module RangeAllocator {
  import opened Ranges

  /** How far joining free neighbours has come. */
  lemma MergeStep(rs: seq<Range>, i: nat)
    requires i + 1 < |rs|
    ensures (Mergeable(rs[i], rs[i + 1]) ==>
      var t := rs[..i] + [Range(rs[i].base, rs[i].pages + rs[i + 1].pages, false)] + rs[i + 2..];
      rs[..i] + Merged(rs[i..]) == t[..i] + Merged(t[i..]))
    ensures !Mergeable(rs[i], rs[i + 1]) ==> rs[..i] + Merged(rs[i..]) == rs[..i + 1] + Merged(rs[i + 1..])
  {
    var t := rs[..i] + [Range(rs[i].base, rs[i].pages + rs[i + 1].pages, false)] + rs[i + 2..];
    assert rs[i..][2..] == rs[i + 2..] && rs[i..][1..] == rs[i + 1..];
    assert t[i..] == [t[i]] + rs[i + 2..] && t[..i] == rs[..i];
    assert rs[..i + 1] == rs[..i] + [rs[i]];
  }

  /** A list with one more range in it. */
  predicate Inserted(before: seq<Range>, after: seq<Range>, r: Range, k: nat) {
    k <= |before| && after == before[..k] + [r] + before[k..]
  }

  /** A free range holds some pages from an address on, with room behind them. */
  predicate Room(r: Range, at: nat, pages: nat) {
    !r.used && r.base <= at && at + pages * PAGE < End(r)
  }

  lemma RoomIs(rs: seq<Range>, start: nat, end: nat, at: nat, pages: nat)
    requires Sound(rs, start, end) && at + pages * PAGE < WORD
    ensures forall r :: r in rs ==> (Holds(r, at, pages) <==> Room(r, at, pages))
  {
    forall r | r in rs ensures Holds(r, at, pages) <==> Room(r, at, pages) {
      var i: nat :| i < |rs| && rs[i] == r;
      Within(rs, start, end, i);
      SmallWord(pages * PAGE);
      SmallWord(at + pages * PAGE);
      SmallWord(End(r));
    }
  }

  /** Joining free neighbours has come to number `i`. The countdown only keeps proofs from looking inside where
      MergingIs is not called. */
  predicate Merging(from: seq<Range>, rs: seq<Range>, i: nat) {
    MergingAfter(from, rs, i, i)
  }

  predicate OpenMerging(from: seq<Range>, rs: seq<Range>, i: nat) {
    i <= |rs| && Merged(from) == rs[..i] + Merged(rs[i..])
  }

  predicate MergingAfter(from: seq<Range>, rs: seq<Range>, i: nat, countdown: nat) {
    if countdown > 0 then MergingAfter(from, rs, i, countdown - 1) else OpenMerging(from, rs, i)
  }

  lemma {:induction false} MergingAfterIs(from: seq<Range>, rs: seq<Range>, i: nat, countdown: nat)
    ensures MergingAfter(from, rs, i, countdown) <==> OpenMerging(from, rs, i)
  {
    if countdown > 0 {
      MergingAfterIs(from, rs, i, countdown - 1);
    }
  }

  lemma MergingIs(from: seq<Range>, rs: seq<Range>, i: nat)
    ensures Merging(from, rs, i) <==> OpenMerging(from, rs, i)
  {
    MergingAfterIs(from, rs, i, i);
  }

  lemma MergingStart(rs: seq<Range>)
    ensures Merging(rs, rs, 0)
  {
    MergingIs(rs, rs, 0);
    assert rs[0..] == rs && rs[..0] == [];
  }

  lemma MergingStep(from: seq<Range>, rs: seq<Range>, i: nat)
    requires Merging(from, rs, i) && i + 1 < |rs|
    ensures (Mergeable(rs[i], rs[i + 1]) ==>
      Merging(from, rs[..i] + [Range(rs[i].base, rs[i].pages + rs[i + 1].pages, false)] + rs[i + 2..], i))
    ensures !Mergeable(rs[i], rs[i + 1]) ==> Merging(from, rs, i + 1)
  {
    MergingIs(from, rs, i);
    MergingIs(from, rs, i + 1);
    MergingIs(from, rs[..i] + [Range(rs[i].base, rs[i].pages + rs[i + 1].pages, false)] + rs[i + 2..], i);
    MergeStep(rs, i);
  }

  lemma MergingDone(from: seq<Range>, rs: seq<Range>, i: nat)
    requires Merging(from, rs, i) && i + 1 >= |rs|
    ensures rs == Merged(from)
  {
    MergingIs(from, rs, i);
    assert rs == rs[..i] + rs[i..];
  }

  /** The header of a range in memory, and a range with the address of its header. */
  datatype Header = Header(next: nat, range: Range)

  datatype Node = Node(at: nat, range: Range)

  function First(ns: seq<Node>, end: nat): nat {
    if ns == [] then end else ns[0].at
  }

  /** The headers of some ranges are in memory, linked up to an end. */
  predicate Linked(mem: map<nat, Header>, ns: seq<Node>, end: nat) {
    ns != [] ==>
      && ns[0].at > 0 && ns[0].at in mem && mem[ns[0].at] == Header(First(ns[1..], end), ns[0].range)
      && Linked(mem, ns[1..], end)
  }

  /** Different ranges have headers at different addresses. */
  predicate Distinct(ns: seq<Node>) {
    forall i, j :: 0 <= i < j < |ns| ==> ns[i].at != ns[j].at
  }

  predicate Avoids(ns: seq<Node>, x: nat) {
    forall n :: n in ns ==> n.at != x
  }

  lemma {:induction false} LinkedConcat(mem: map<nat, Header>, a: seq<Node>, b: seq<Node>, end: nat)
    ensures Linked(mem, a + b, end) <==> Linked(mem, a, First(b, end)) && Linked(mem, b, end)
  {
    if a == [] {
      assert a + b == b;
    } else {
      assert (a + b)[1..] == a[1..] + b;
      LinkedConcat(mem, a[1..], b, end);
    }
  }

  /** Writing elsewhere leaves headers linked. */
  lemma {:induction false} LinkedPut(mem: map<nat, Header>, ns: seq<Node>, end: nat, x: nat, h: Header)
    requires Linked(mem, ns, end) && Avoids(ns, x)
    ensures Linked(mem[x := h], ns, end)
  {
    if ns != [] {
      assert ns[0] in ns;
      LinkedPut(mem, ns[1..], end, x, h);
    }
  }

  lemma {:induction false} LinkedAt(mem: map<nat, Header>, ns: seq<Node>, end: nat, i: nat)
    requires Linked(mem, ns, end) && i < |ns|
    ensures ns[i].at > 0 && ns[i].at in mem && mem[ns[i].at] == Header(First(ns[i + 1..], end), ns[i].range)
  {
    if i > 0 {
      LinkedAt(mem, ns[1..], end, i - 1);
      assert ns[1..][i..] == ns[i + 1..];
    }
  }

  /** One header rewritten, and with it how the list goes on. */
  lemma Rewritten(mem: map<nat, Header>, a: seq<Node>, c: Node, b: seq<Node>, b': seq<Node>, r: Range)
    requires Linked(mem, a + ([c] + b), 0) && Avoids(a, c.at) && Linked(mem, b', 0) && Avoids(b', c.at)
    ensures Linked(mem[c.at := Header(First(b', 0), r)], a + ([Node(c.at, r)] + b'), 0)
  {
    var h := Header(First(b', 0), r);
    var n := [Node(c.at, r)] + b';
    LinkedConcat(mem, a, [c] + b, 0);
    LinkedPut(mem, a, c.at, c.at, h);
    LinkedPut(mem, b', 0, c.at, h);
    assert n[1..] == b';
    LinkedConcat(mem[c.at := h], a, n, 0);
  }

  /** The headers are linked up to the end of the list. The countdown only keeps proofs from looking inside where
      ChainedIs is not called. */
  predicate Chained(mem: map<nat, Header>, ns: seq<Node>) {
    ChainedAfter(mem, ns, |ns|)
  }

  predicate OpenChained(mem: map<nat, Header>, ns: seq<Node>) {
    Linked(mem, ns, 0)
  }

  predicate ChainedAfter(mem: map<nat, Header>, ns: seq<Node>, countdown: nat) {
    if countdown > 0 then ChainedAfter(mem, ns, countdown - 1) else OpenChained(mem, ns)
  }

  lemma {:induction false} ChainedAfterIs(mem: map<nat, Header>, ns: seq<Node>, countdown: nat)
    ensures ChainedAfter(mem, ns, countdown) <==> OpenChained(mem, ns)
  {
    if countdown > 0 {
      ChainedAfterIs(mem, ns, countdown - 1);
    }
  }

  lemma ChainedIs(mem: map<nat, Header>, ns: seq<Node>)
    ensures Chained(mem, ns) <==> OpenChained(mem, ns)
  {
    ChainedAfterIs(mem, ns, |ns|);
  }

  lemma ChainedPut(mem: map<nat, Header>, ns: seq<Node>, x: nat, h: Header)
    requires Chained(mem, ns) && Avoids(ns, x)
    ensures Chained(mem[x := h], ns)
  {
    ChainedIs(mem, ns);
    ChainedIs(mem[x := h], ns);
    LinkedPut(mem, ns, 0, x, h);
  }

  lemma ChainedAt(mem: map<nat, Header>, ns: seq<Node>, i: nat)
    requires Chained(mem, ns) && i < |ns|
    ensures ns[i].at > 0 && ns[i].at in mem && mem[ns[i].at] == Header(First(ns[i + 1..], 0), ns[i].range)
  {
    ChainedIs(mem, ns);
    LinkedAt(mem, ns, 0, i);
  }

  lemma ChainedFrom(mem: map<nat, Header>, ns: seq<Node>, j: nat)
    requires Chained(mem, ns) && j <= |ns|
    ensures Chained(mem, ns[j..])
  {
    ChainedIs(mem, ns);
    ChainedIs(mem, ns[j..]);
    assert ns == ns[..j] + ns[j..];
    LinkedConcat(mem, ns[..j], ns[j..], 0);
  }

  /** A header in front of a list. */
  lemma ChainedMore(mem: map<nat, Header>, n: Node, ns: seq<Node>)
    requires Chained(mem, ns) && n.at > 0 && n.at in mem && mem[n.at] == Header(First(ns, 0), n.range)
    ensures Chained(mem, [n] + ns)
  {
    ChainedIs(mem, ns);
    ChainedIs(mem, [n] + ns);
    assert ([n] + ns)[1..] == ns;
  }

  lemma Rewrote(mem: map<nat, Header>, a: seq<Node>, c: Node, b: seq<Node>, b': seq<Node>, r: Range)
    requires Chained(mem, a + ([c] + b)) && Avoids(a, c.at) && Chained(mem, b') && Avoids(b', c.at)
    ensures Chained(mem[c.at := Header(First(b', 0), r)], a + ([Node(c.at, r)] + b'))
  {
    ChainedIs(mem, a + ([c] + b));
    ChainedIs(mem, b');
    Rewritten(mem, a, c, b, b', r);
    ChainedIs(mem[c.at := Header(First(b', 0), r)], a + ([Node(c.at, r)] + b'));
  }

  /** The ranges of some headers. */
  function RangesOf(ns: seq<Node>): (rs: seq<Range>)
    ensures |rs| == |ns| && forall i :: 0 <= i < |ns| ==> rs[i] == ns[i].range
  {
    seq(|ns|, i requires 0 <= i < |ns| => ns[i].range)
  }

  /** The headers from number `i` up to number `j` replaced by that of number `i`, for another range, and by some more
      in front of what follows. */
  function Spliced(ns: seq<Node>, i: nat, j: nat, r: Range, more: seq<Node>): seq<Node>
    requires i < j <= |ns|
  {
    ns[..i] + ([Node(ns[i].at, r)] + (more + ns[j..]))
  }

  lemma SplicedRanges(ns: seq<Node>, i: nat, j: nat, r: Range, more: seq<Node>)
    requires i < j <= |ns|
    ensures RangesOf(Spliced(ns, i, j, r, more)) == RangesOf(ns)[..i] + ([r] + RangesOf(more)) + RangesOf(ns)[j..]
  {
  }

  lemma SplicedDistinct(ns: seq<Node>, i: nat, j: nat, r: Range, more: seq<Node>)
    requires i < j <= |ns| && Distinct(ns) && Distinct(more) && forall n :: n in more ==> Avoids(ns, n.at)
    ensures Distinct(Spliced(ns, i, j, r, more))
  {
    var t := Spliced(ns, i, j, r, more);
    forall k, l | 0 <= k < l < |t| ensures t[k].at != t[l].at {
      if k <= i {
        assert t[k].at == ns[k].at && ns[k] in ns;
        if i < l <= i + |more| { assert t[l] == more[l - i - 1] && t[l] in more; }
      } else if k <= i + |more| {
        assert t[k] == more[k - i - 1] && t[k] in more;
        if l > i + |more| { assert t[l] == ns[l - i - 1 - |more| + j] && t[l] in ns; }
      }
    }
  }

  lemma SplicedChained(mem: map<nat, Header>, ns: seq<Node>, i: nat, j: nat, r: Range, more: seq<Node>)
    requires Chained(mem, ns) && i < j <= |ns| && Distinct(ns) && forall n :: n in more ==> Avoids(ns, n.at)
    requires Chained(mem, more + ns[j..])
    ensures Chained(mem[ns[i].at := Header(First(more + ns[j..], 0), r)], Spliced(ns, i, j, r, more))
  {
    var a, c, b := ns[..i], ns[i], ns[i + 1..];
    assert ns == a + ([c] + b);
    forall n | n in a ensures n.at != c.at {
      var k :| 0 <= k < |a| && a[k] == n;
      assert ns[k] == n;
    }
    forall n | n in more + ns[j..] ensures n.at != c.at {
      if n in more {
        assert c in ns;
      } else {
        var k :| 0 <= k < |ns[j..]| && ns[j..][k] == n;
        assert ns[j + k] == n;
      }
    }
    Rewrote(mem, a, c, b, more + ns[j..], r);
  }

  class Allocator {
    var head: nat
    var mem: map<nat, Header>
    var brk: nat  // the kernel heap gives addresses that are not in use
    ghost var nodes: seq<Node>
    ghost var start: nat
    ghost var end: nat

    /** The headers of the ranges are linked in memory from the head on. */
    ghost predicate Threaded()
      reads this
    {
      && head == First(nodes, 0) && Distinct(nodes) && Chained(mem, nodes)
      && 0 < brk && forall x :: x in mem ==> x < brk
    }

    ghost function List(): seq<Range>
      reads this
    {
      RangesOf(nodes)
    }

    /** The ranges tile the region exactly, without two free neighbours. */
    ghost predicate Valid()
      reads this
    {
      Threaded() && Sound(List(), start, end) && start % PAGE == 0
    }

    /** One range added to an empty allocator. */
    constructor (from: nat, to: nat)
      requires from % PAGE == 0 && from + PAGE <= to < WORD
      ensures Valid() && start == from && end == from + (to - from) / PAGE * PAGE && InUse(List()) == []
    {
      var range := Range(from, (to - from) / PAGE, false);
      head, mem, brk := 1, map[1 := Header(0, range)], 2;
      nodes := [Node(1, range)];
      start, end := from, from + (to - from) / PAGE * PAGE;
      new;
      OneRange(range, start, end);
      assert List() == [range] && [nodes[0]] + [] == nodes;
      ChainedIs(mem, []);
      ChainedMore(mem, nodes[0], []);
    }

    /** The header of a range: where the next one is, and what it says. */
    lemma Here(i: nat)
      requires Threaded() && i < |nodes|
      ensures nodes[i].at > 0 && nodes[i].at in mem && List()[i] == nodes[i].range
      ensures mem[nodes[i].at] == Header(First(nodes[i + 1..], 0), List()[i])
      ensures mem[nodes[i].at].next == 0 <==> i + 1 == |nodes|
    {
      ChainedAt(mem, nodes, i);
      if i + 1 < |nodes| {
        ChainedAt(mem, nodes, i + 1);
      }
    }

    /** On the way along the list, at number `i` or behind the end. */
    ghost predicate On(range: nat, i: nat)
      reads this
    {
      i <= |nodes| && range == First(nodes[i..], 0) && (range == 0 <==> i == |nodes|) && (range != 0 ==> range in mem)
    }

    lemma OnStart()
      requires Threaded()
      ensures On(head, 0)
    {
      assert nodes[0..] == nodes;
      if nodes != [] {
        Here(0);
      }
    }

    lemma OnNext(i: nat)
      requires Threaded() && i < |nodes|
      ensures nodes[i].at in mem && On(mem[nodes[i].at].next, i + 1)
    {
      Here(i);
      if i + 1 < |nodes| {
        Here(i + 1);
      }
    }

    /** `new`: a header at an address that is not in use. */
    method New(h: Header) returns (x: nat)
      requires Threaded()
      modifies `mem, `brk
      ensures Threaded() && x > 0 && x !in old(mem) && Avoids(nodes, x) && mem == old(mem)[x := h]
    {
      x := brk;
      forall n | n in nodes ensures n.at != x {
        var k: nat :| k < |nodes| && nodes[k] == n;
        Here(k);
      }
      ChainedPut(mem, nodes, x, h);
      mem, brk := mem[x := h], brk + 1;
    }

    /** A header filled in, and with it how the list goes on. */
    method Fill(x: nat, h: Header, ghost i: nat, ghost j: nat, ghost more: seq<Node>)
      requires Threaded() && i < j <= |nodes| && x == nodes[i].at && h.next == First(more + nodes[j..], 0)
      requires Chained(mem, more + nodes[j..]) && Distinct(more) && forall n :: n in more ==> Avoids(nodes, n.at)
      modifies `mem, `nodes
      ensures Threaded() && nodes == Spliced(old(nodes), i, j, h.range, more)
      ensures List() == old(List())[..i] + ([h.range] + RangesOf(more)) + old(List())[j..]
    {
      Here(i);
      SplicedChained(mem, nodes, i, j, h.range, more);
      SplicedDistinct(nodes, i, j, h.range, more);
      SplicedRanges(nodes, i, j, h.range, more);
      mem := mem[x := h];
      nodes := Spliced(nodes, i, j, h.range, more);
    }

    /** Two neighbours joined. */
    method Join(x: nat, ghost i: nat)
      requires Threaded() && i + 1 < |nodes| && On(x, i) && !List()[i].used
      modifies `mem, `nodes
      ensures Threaded() && On(x, i) && |nodes| == |old(nodes)| - 1 && head == old(head)
      ensures var rs := old(List());
              List() == rs[..i] + [Range(rs[i].base, rs[i].pages + rs[i + 1].pages, false)] + rs[i + 2..]
    {
      Here(i);
      Here(i + 1);
      ChainedFrom(mem, nodes, i + 2);
      assert [] + nodes[i + 2..] == nodes[i + 2..];
      var h, n := mem[x], mem[mem[x].next];
      Fill(x, Header(n.next, Range(h.range.base, h.range.pages + n.range.pages, h.range.used)), i, i + 2, []);
      Here(i);
    }

    /** Free neighbours that continue each other joined along the whole list. */
    method MergeAll()
      requires Threaded()
      modifies `mem, `nodes
      ensures Threaded() && List() == Merged(old(List()))
    {
      ghost var i: nat := 0;
      var range := head;
      OnStart();
      MergingStart(List());
      while range != 0 && mem[range].next != 0
        invariant Threaded() && On(range, i) && Merging(old(List()), List(), i)
        decreases |nodes| - i
      {
        Here(i);
        Here(i + 1);
        MergingStep(old(List()), List(), i);
        var r, n := mem[range].range, mem[mem[range].next].range;
        if !r.used && !n.used && r.base + r.pages * PAGE == n.base {
          Join(range, i);
        } else {
          OnNext(i);
          range, i := mem[range].next, i + 1;
        }
      }
      if range != 0 {
        Here(i);
      }
      MergingDone(old(List()), List(), i);
    }

    /** A range put in use, with what it does not need split off. */
    method TakeAt(x: nat, pages: nat, ghost i: nat)
      requires Threaded() && i < |nodes| && On(x, i) && pages <= List()[i].pages
      modifies `mem, `nodes, `brk
      ensures Threaded() && List() == Taken(old(List()), i, pages)
    {
      Here(i);
      var r := mem[x].range;
      if r.pages > pages {
        Split(x, Range(r.base, pages, true), Range(r.base + pages * PAGE, r.pages - pages, false), i);
      } else {
        Reset(x, true, i);
      }
    }

    /** First fit: the first free range with enough pages is taken, and it fails only if there is none. Just those
        pages are then in use besides those that were, and the ranges tile the region as before, exactly if some page
        was asked for. */
    method AllocateRange(pages: nat) returns (ok: bool, base: nat, ghost i: nat)
      requires Valid()
      modifies `mem, `nodes, `brk
      ensures Threaded() && (ok <==> exists r :: r in old(List()) && !r.used && pages <= r.pages)
      ensures !ok ==> Valid() && List() == old(List())
      ensures ok ==>
                && i < |old(List())| && FirstFit(old(List()), i, pages) && base == old(List())[i].base
                && List() == Taken(old(List()), i, pages) && (Valid() <==> pages > 0)
      ensures ok && pages > 0 ==>
                && Pages(List()) == old(Pages(List()))
                && Inserted(old(InUse(List())), InUse(List()), Range(base, pages, true), |InUse(old(List())[..i])|)
    {
      ok, base, i := false, 0, 0;
      var range := head;
      ghost var rs := List();
      OnStart();
      while range != 0 && (mem[range].range.used || mem[range].range.pages < pages)
        invariant Valid() && List() == rs && On(range, i) && forall r :: r in rs[..i] ==> r.used || r.pages < pages
        decreases |nodes| - i
      {
        Here(i);
        OnNext(i);
        range, i := mem[range].next, i + 1;
      }
      if range == 0 {
        assert rs[..i] == rs;
        return;
      }
      Here(i);
      assert rs[i] in rs;
      ok, base := true, mem[range].range.base;
      TakeAt(range, pages, i);
      TakenSoundIff(rs, i, pages, start, end);
      if pages > 0 {
        TakenIs(rs, i, pages, start, end);
        TilesForward(rs, start, end);
        TilesForward(List(), start, end);
      }
    }

    /** A header's range replaced. */
    method Reset(x: nat, used: bool, ghost i: nat)
      requires Threaded() && i < |nodes| && On(x, i)
      modifies `mem, `nodes
      ensures Threaded() && List() == old(List())[..i] + [old(List())[i].(used := used)] + old(List())[i + 1..]
    {
      Here(i);
      ChainedFrom(mem, nodes, i + 1);
      assert [] + nodes[i + 1..] == nodes[i + 1..];
      Fill(x, Header(mem[x].next, mem[x].range.(used := used)), i, i + 1, []);
    }

    /** The range in use with a base given back; nothing happens for any other base. */
    method FreeRange(base: nat)
      requires Valid()
      modifies `mem, `nodes
      ensures Valid() && Pages(List()) == old(Pages(List()))
      ensures (forall r :: r in old(List()) ==> r.base != base || !r.used) ==> List() == old(List())
      ensures forall i: nat :: i < |old(List())| && old(List())[i].base == base && old(List())[i].used ==>
                GivenBack(old(List()), i, List())
    {
      ghost var i, rs := 0, List();
      var range := head;
      OnStart();
      while range != 0 && mem[range].range.base != base
        invariant Valid() && List() == rs && On(range, i) && forall r :: r in rs[..i] ==> r.base != base
        decreases |nodes| - i
      {
        Here(i);
        OnNext(i);
        range, i := mem[range].next, i + 1;
      }
      if range != 0 {
        Here(i);
      }
      OnlyBase(rs, start, end, base, i);
      if range != 0 {
        if mem[range].range.used {
          ReleasedIs(rs, i, start, end);
          TilesForward(rs, start, end);
          Reset(range, false, i);
          MergeAll();
          TilesForward(List(), start, end);
        }
      }
    }

    /** A free range cut around given pages. */
    method CutAt(x: nat, first: nat, pages: nat, ghost i: nat)
      requires Threaded() && i < |nodes| && On(x, i) && Holds(List()[i], first, pages)
      modifies `mem, `nodes, `brk
      ensures Threaded() && List() == Used(old(List()), i, first, pages)
    {
      Here(i);
      var h, r := mem[x], mem[x].range;
      if r.base == first {
        var split := Range((r.base + pages * PAGE) % WORD, (r.pages - pages) % WORD, false);
        Split(x, r.(used := true), split, i);
      } else {
        var before := (first - r.base) % WORD / PAGE;
        var split1 := Range(first, pages, true);
        var split2 := Range((first + pages * PAGE) % WORD, (r.pages - (before + pages)) % WORD, false);
        SplitTwice(x, Range(r.base, before, false), split1, split2, i);
      }
    }

    /** A header for another range, and one for the rest behind it. */
    method Split(x: nat, r: Range, split: Range, ghost i: nat)
      requires Threaded() && i < |nodes| && On(x, i)
      modifies `mem, `nodes, `brk
      ensures Threaded() && List() == old(List())[..i] + [r, split] + old(List())[i + 1..]
    {
      Here(i);
      var s := New(Header(mem[x].next, split));
      ChainedFrom(mem, nodes, i + 1);
      ChainedMore(mem, Node(s, split), nodes[i + 1..]);
      Fill(x, Header(s, r), i, i + 1, [Node(s, split)]);
      assert [r] + RangesOf([Node(s, split)]) == [r, split];
    }

    /** The same with two of them. */
    method SplitTwice(x: nat, r: Range, split1: Range, split2: Range, ghost i: nat)
      requires Threaded() && i < |nodes| && On(x, i)
      modifies `mem, `nodes, `brk
      ensures Threaded() && List() == old(List())[..i] + [r, split1, split2] + old(List())[i + 1..]
    {
      Here(i);
      var s2 := New(Header(mem[x].next, split2));
      var s1 := New(Header(s2, split1));
      ghost var n1, n2 := Node(s1, split1), Node(s2, split2);
      ChainedFrom(mem, nodes, i + 1);
      ChainedMore(mem, n2, nodes[i + 1..]);
      ChainedMore(mem, n1, [n2] + nodes[i + 1..]);
      assert [n1, n2] + nodes[i + 1..] == [n1] + ([n2] + nodes[i + 1..]);
      Fill(x, Header(s1, r), i, i + 1, [n1, n2]);
      assert [r] + RangesOf([n1, n2]) == [r, split1, split2];
    }

    /** Given pages put in use, out of the first free range that holds them with room behind; it fails exactly if
        there is none. Just those pages are then in use besides those that were, and the ranges tile the region as
        before, exactly if they are some, do not begin that range and do not wrap around. */
    method UseRange(at: nat, pages: nat) returns (ok: bool, ghost i: nat)
      requires Valid() && at < WORD
      modifies `mem, `nodes, `brk
      ensures Threaded() && (ok <==> exists r :: r in old(List()) && Holds(r, AlignDown(at), pages))
      ensures AlignDown(at) + pages * PAGE < WORD ==>
                (ok <==> exists r :: r in old(List()) && Room(r, AlignDown(at), pages))
      ensures !ok ==> Valid() && List() == old(List())
      ensures ok ==>
                && i < |old(List())| && FirstHolder(old(List()), i, AlignDown(at), pages)
                && List() == Used(old(List()), i, AlignDown(at), pages)
                && (Valid() <==>
                      0 < pages && old(List())[i].base < AlignDown(at) && AlignDown(at) + pages * PAGE < WORD)
      ensures ok && Valid() ==>
                && Pages(List()) == old(Pages(List()))
                && Inserted(old(InUse(List())), InUse(List()), Range(AlignDown(at), pages, true),
                     |InUse(old(List())[..i])|)
    {
      var range, first;
      ghost var rs := List();
      first := AlignDown(at);
      ok, range, i := FindHolder(first, pages);
      if first + pages * PAGE < WORD {
        RoomIs(rs, start, end, first, pages);
      }
      if ok {
        CutAt(range, first, pages, i);
        UsedWell(rs, i, first, pages, start, end);
      }
    }

    /** The first free range that holds given pages with room behind. */
    method FindHolder(first: nat, pages: nat) returns (ok: bool, range: nat, ghost i: nat)
      requires Valid()
      ensures ok <==> exists r :: r in List() && Holds(r, first, pages)
      ensures ok ==> i < |nodes| && On(range, i) && FirstHolder(List(), i, first, pages)
    {
      ok, range, i := false, head, 0;
      OnStart();
      while range != 0
        invariant On(range, i) && forall r :: r in List()[..i] ==> !Holds(r, first, pages)
        decreases |nodes| - i
      {
        Here(i);
        var r := mem[range].range;
        if !r.used {
          if r.base <= first && (first + pages * PAGE % WORD) % WORD < (r.base + r.pages * PAGE) % WORD {
            assert List()[i] in List();
            ok := true;
            return;
          }
        }
        OnNext(i);
        range, i := mem[range].next, i + 1;
      }
      assert List()[..i] == List();
    }
  }

  /** When given pages are used well, and what is then in use. */
  lemma UsedWell(rs: seq<Range>, i: nat, at: nat, pages: nat, start: nat, end: nat)
    requires && Sound(rs, start, end) && start % PAGE == 0 && i < |rs| && at < WORD && at % PAGE == 0
             && Holds(rs[i], at, pages)
    ensures var rs' := Used(rs, i, at, pages);
            && (Sound(rs', start, end) <==> 0 < pages && rs[i].base < at && at + pages * PAGE < WORD)
            && (Sound(rs', start, end) ==>
                  && Pages(rs') == Pages(rs)
                  && Inserted(InUse(rs), InUse(rs'), Range(at, pages, true), |InUse(rs[..i])|))
  {
    var rs' := Used(rs, i, at, pages);
    UsedSoundIff(rs, i, at, pages, start, end);
    if Sound(rs', start, end) {
      UsedIs(rs, i, at, pages, start, end);
      TilesForward(rs, start, end);
      TilesForward(rs', start, end);
    }
  }

  predicate FirstHolder(rs: seq<Range>, i: nat, at: nat, pages: nat)
    requires i < |rs|
  {
    Holds(rs[i], at, pages) && forall r :: r in rs[..i] ==> !Holds(r, at, pages)
  }

  /** Range `i` is in use no longer, and all others that were are. */
  ghost predicate GivenBack(rs: seq<Range>, i: nat, rs': seq<Range>)
    requires i < |rs|
  {
    && InUse(rs) == InUse(rs[..i]) + [rs[i]] + InUse(rs[i + 1..])
    && InUse(rs') == InUse(rs[..i]) + InUse(rs[i + 1..])
  }

  lemma OnlyBase(rs: seq<Range>, start: nat, end: nat, base: nat, i: nat)
    requires Tiles(rs, start, end) && i <= |rs| && (forall r :: r in rs[..i] ==> r.base != base)
    requires i < |rs| ==> rs[i].base == base
    ensures forall j: nat :: j < |rs| && rs[j].base == base ==> j == i
  {
    forall j: nat | j < |rs| && j != i ensures rs[j].base != base {
      if j < i {
        assert rs[j] in rs[..i];
      } else {
        Apart(rs, start, end, i, j);
      }
    }
  }

  predicate FirstFit(rs: seq<Range>, i: nat, pages: nat)
    requires i < |rs|
  {
    !rs[i].used && pages <= rs[i].pages && forall r :: r in rs[..i] ==> r.used || r.pages < pages
  }
}
