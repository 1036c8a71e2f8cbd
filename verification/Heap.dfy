/** The kernel heap: the free-list allocator behind a limit up to which it grows. */
module Heap {
  import opened ChunkList
  import FreeList

  const PAGE := 4096
  const EXPANSION_STEP := 0x100000
  const MAX_EXPANSION := 0xFFFF_8001_5010_0000

  /** A list with one more chunk in it. */
  predicate Inserted(before: seq<Chunk>, after: seq<Chunk>, c: Chunk, k: nat) {
    k <= |before| && after == before[..k] + [c] + before[k..]
  }

  /** An allocation puts one chunk among the chunks in use. */
  lemma GrantedInserts(cs: seq<Chunk>, i: nat, size: nat)
    requires Sound(cs) && i < |cs| && Fits(cs[i], size) && HEADER + size < WORD
    ensures Inserted(InUse(cs), InUse(Granted(cs, i, size)), Chunk(cs[i].at, true, size), |InUse(cs[..i])|)
  {
    GrantedIs(cs, i, size);
  }

  /** Chunks lie between two addresses. The countdown only keeps proofs from looking inside where WithinIs is not
      called. */
  predicate Within(cs: seq<Chunk>, start: nat, end: nat) {
    WithinAfter(cs, start, end, |cs|)
  }

  predicate OpenWithin(cs: seq<Chunk>, start: nat, end: nat) {
    forall c :: c in cs ==> start <= c.at && End(c) <= end
  }

  predicate WithinAfter(cs: seq<Chunk>, start: nat, end: nat, countdown: nat) {
    if countdown > 0 then WithinAfter(cs, start, end, countdown - 1) else OpenWithin(cs, start, end)
  }

  lemma {:induction false} WithinAfterIs(cs: seq<Chunk>, start: nat, end: nat, countdown: nat)
    ensures WithinAfter(cs, start, end, countdown) <==> OpenWithin(cs, start, end)
  {
    if countdown > 0 {
      WithinAfterIs(cs, start, end, countdown - 1);
    }
  }

  lemma WithinIs(cs: seq<Chunk>, start: nat, end: nat)
    ensures Within(cs, start, end) <==> OpenWithin(cs, start, end)
  {
    WithinAfterIs(cs, start, end, |cs|);
  }

  lemma WithinInserted(before: seq<Chunk>, after: seq<Chunk>, c: Chunk, k: nat, start: nat, end: nat)
    requires Inserted(before, after, c, k) && Within(before, start, end) && start <= c.at && End(c) <= end
    ensures Within(after, start, end)
  {
    WithinIs(before, start, end);
    WithinIs(after, start, end);
    forall d | d in after ensures d in before || d == c {
      var j :| 0 <= j < |after| && after[j] == d;
      assert j < k || j == k || d == before[j - 1];
    }
  }

  lemma WithinRemoved(before: seq<Chunk>, behind: seq<Chunk>, c: Chunk, start: nat, end: nat)
    requires Within(before + [c] + behind, start, end)
    ensures Within(before + behind, start, end)
  {
    WithinIs(before + [c] + behind, start, end);
    WithinIs(before + behind, start, end);
    forall d | d in before + behind ensures d in before + [c] + behind {
    }
  }

  lemma WithinMore(cs: seq<Chunk>, start: nat, end: nat, end': nat)
    requires Within(cs, start, end) && end <= end'
    ensures Within(cs, start, end')
  {
    WithinIs(cs, start, end);
    WithinIs(cs, start, end');
  }

  lemma FirstAt(cs: seq<Chunk>, i: nat)
    requires Sound(cs) && i < |cs|
    ensures 0 < cs[i].at && cs[0].at <= cs[i].at
  {
    if i > 0 {
      Apart(cs, 0, i);
    }
  }

  /** An allocation keeps the chunks in use within the heap. */
  lemma GrantedWithin(cs: seq<Chunk>, i: nat, size: nat, start: nat, end: nat)
    requires Sound(cs) && i < |cs| && Fits(cs[i], size) && HEADER + size < WORD
    requires cs[0].at == start && End(cs[|cs| - 1]) <= end + HEADER && Within(InUse(cs), start, end)
    ensures Within(InUse(Granted(cs, i, size)), start, end) && start <= cs[i].at && 0 < cs[i].at
    ensures cs[i].at + HEADER + size <= end
  {
    GrantedInserts(cs, i, size);
    EndBound(cs, i);
    FirstAt(cs, i);
    WithinInserted(InUse(cs), InUse(Granted(cs, i, size)), Chunk(cs[i].at, true, size), |InUse(cs[..i])|, start, end);
  }

  /** The headers of chunks lie before an address. */
  predicate HeadersWithin(cs: seq<Chunk>, end: nat) {
    forall c :: c in cs ==> c.at + HEADER <= end
  }

  /** The header of what is left of the chunk lies within the heap only if there is room for it behind what was
      granted. */
  lemma GrantedHeaders(cs: seq<Chunk>, i: nat, size: nat, end: nat)
    requires Sound(cs) && i < |cs| && Fits(cs[i], size) && HEADER + size < WORD && HeadersWithin(cs, end)
    ensures HeadersWithin(Granted(cs, i, size), end) <==> cs[i].at + HEADER + size + HEADER <= end
  {
    var t, h := Granted(cs, i, size), Halves(cs[i], size);
    EndBound(cs, i);
    HalvesAre(cs[i], size);
    assert t[i + 1] == h[1] && h[1] in t;
    forall c | c in t ensures c in cs || c == h[0] || c == h[1] {
      var j :| 0 <= j < |t| && t[j] == c;
      assert j < i || j == i || j == i + 1 || c == cs[j - 1];
    }
  }

  /** An allocation of all the room there is: the header of the empty rest lies behind the end of the heap. */
  lemma HeaderBehind(start: nat, room: nat)
    requires 0 < start && start + HEADER + room + HEADER <= WORD
    ensures var end, cs := start + HEADER + room, [Chunk(start, false, HEADER + room)];
            && Sound(cs) && Fits(cs[0], room) && HeadersWithin(cs, end)
            && !HeadersWithin(Granted(cs, 0, room), end)
  {
    var cs := [Chunk(start, false, HEADER + room)];
    OneChunk(cs[0]);
    GrantedHeaders(cs, 0, room, start + HEADER + room);
  }

  /** What an allocation does to the heap. */
  lemma GrantedHeap(cs: seq<Chunk>, i: nat, size: nat, start: nat, end: nat)
    requires Sound(cs) && i < |cs| && Fits(cs[i], size) && HEADER + size < WORD
    requires cs[0].at == start && End(cs[|cs| - 1]) <= end + HEADER && Within(InUse(cs), start, end)
    ensures var t := Granted(cs, i, size);
            && Total(t) + HEADER == Total(cs) && UsedTotal(t) == UsedTotal(cs) + size
            && End(t[|t| - 1]) == End(cs[|cs| - 1]) && Within(InUse(t), start, end)
            && Inserted(InUse(cs), InUse(t), Chunk(cs[i].at, true, size), |InUse(cs[..i])|)
            && (HeadersWithin(cs, end) ==>
                  (HeadersWithin(t, end) <==> cs[i].at + HEADER + size + HEADER <= end))
    ensures 0 < cs[i].at && start <= cs[i].at && cs[i].at + HEADER + size <= end
  {
    GrantedIs(cs, i, size);
    GrantedInserts(cs, i, size);
    GrantedWithin(cs, i, size, start, end);
    if HeadersWithin(cs, end) {
      GrantedHeaders(cs, i, size, end);
    }
  }

  /** How many pages begin in a stretch of memory whose start is one. */
  function PagesBetween(start: nat, end: nat): nat {
    if end <= start then 0 else (end - start - 1) / PAGE + 1
  }

  lemma PageBetween(start: nat, end: nat, k: nat)
    requires start <= end
    ensures start + PAGE * k < end <==> k < PagesBetween(start, end)
  {
  }

  function Supplied(supply: seq<nat>, n: nat): nat {
    if n < |supply| then supply[n] else 0
  }

  function Least(a: nat, b: nat): nat {
    if a < b then a else b
  }

  class Heap {
    const list: FreeList.Allocator
    var heapStart: nat
    var heapEnd: nat
    var heapUsed: nat
    ghost var grants: nat

    /** The bytes the chunks hold and a header for every allocation ever granted are the bytes of the heap, the bytes
        in use are counted, and all chunks in use lie within the heap. */
    ghost predicate Valid()
      reads this, list
    {
      && list.Valid() && heapStart <= heapEnd <= MAX_EXPANSION
      && Total(list.chunks) + HEADER * grants == heapEnd - heapStart
      && End(Last()) <= heapEnd + HEADER
      && heapUsed == UsedTotal(list.chunks) && list.head == heapStart && Within(InUse(list.chunks), heapStart, heapEnd)
    }

    /** The headers of all chunks lie within the heap. */
    ghost predicate Inside()
      reads this, list
    {
      HeadersWithin(list.chunks, heapEnd)
    }

    ghost function Last(): Chunk
      requires list.chunks != []
      reads this, list
    {
      list.chunks[|list.chunks| - 1]
    }

    constructor (start: nat, end: nat)
      requires 0 < start <= end <= MAX_EXPANSION
      ensures Valid() && fresh(list) && heapStart == start && heapEnd == end && heapUsed == 0 && grants == 0
    {
      list := new FreeList.Allocator(start, end);
      heapStart, heapEnd, heapUsed, grants := start, end, 0, 0;
      new;
      OneChunk(Chunk(start, false, end - start));
      WithinIs([], start, end);
    }

    /** Takes a page for every page from heapStart up to `to`, also for those that have one. The page allocator has
        `supply` pages to give. */
    method TakePages(to: nat, supply: nat) returns (ok: bool)
      requires heapStart <= to
      ensures ok <==> PagesBetween(heapStart, to) <= supply
    {
      var virt: nat, taken: nat := heapStart, 0;
      while virt < to
        invariant virt == heapStart + PAGE * taken && taken <= supply && taken <= PagesBetween(heapStart, to)
        decreases PagesBetween(heapStart, to) - taken
      {
        PageBetween(heapStart, to, taken);
        if taken == supply {
          return false;
        }
        virt, taken := virt + PAGE, taken + 1;
      }
      PageBetween(heapStart, to, taken);
      ok := true;
    }

    /** The heap grows by one step if that stays within the limit and the page allocator, which has `supply` pages to
        give, can give one for every page of the whole heap; the free chunk at its end grows with it. */
    method Expand(supply: nat) returns (ok: bool)
      requires Valid()
      modifies this, list
      ensures && Valid() && InUse(list.chunks) == old(InUse(list.chunks)) && heapUsed == old(heapUsed)
              && heapStart == old(heapStart) && grants == old(grants)
      ensures ok <==>
                && old(heapEnd) + EXPANSION_STEP <= MAX_EXPANSION
                && PagesBetween(heapStart, old(heapEnd) + EXPANSION_STEP) <= supply
      ensures ok ==>
                && heapEnd == old(heapEnd) + EXPANSION_STEP
                && Last() == old(Last()).(size := old(Last()).size + EXPANSION_STEP)
      ensures !ok ==> heapEnd == old(heapEnd) && list.chunks == old(list.chunks)
    {
      if heapEnd + EXPANSION_STEP > MAX_EXPANSION {
        return false;
      }
      ok := TakePages(heapEnd + EXPANSION_STEP, supply);
      if ok {
        Grow();
      }
    }

    method Grow()
      requires Valid() && heapEnd + EXPANSION_STEP <= MAX_EXPANSION
      modifies `heapEnd, list
      ensures Valid() && InUse(list.chunks) == old(InUse(list.chunks)) && heapEnd == old(heapEnd) + EXPANSION_STEP
      ensures Last() == old(Last()).(size := old(Last()).size + EXPANSION_STEP)
    {
      GrownIs(list.chunks, EXPANSION_STEP);
      list.Expand(EXPANSION_STEP);
      WithinMore(InUse(list.chunks), heapStart, heapEnd, heapEnd + EXPANSION_STEP);
      heapEnd := heapEnd + EXPANSION_STEP;
    }

    /** An allocation adds one chunk of just that size to the chunks in use, growing the heap as far as it must; it
        fails only when no free chunk is large enough and the heap is at its limit or there are not enough pages for
        it to grow. At the n-th growth from now on the page allocator has supply[n] pages to give. */
    method Allocate(size: nat, supply: seq<nat>) returns (p: nat, ok: bool, ghost k: nat, ghost n: nat)
      requires Valid() && HEADER + size < WORD
      modifies this, list
      ensures Valid() && heapStart == old(heapStart) && old(heapEnd) <= heapEnd
      ensures p == 0 <==> size == 0 || !ok
      ensures p == 0 ==>
                InUse(list.chunks) == old(InUse(list.chunks)) && heapUsed == old(heapUsed) && grants == old(grants)
      ensures size == 0 ==> ok && heapEnd == old(heapEnd) && list.chunks == old(list.chunks)
      ensures heapEnd == old(heapEnd) + EXPANSION_STEP * n
      ensures !ok ==> forall c :: c in list.chunks ==> !Fits(c, size)
      ensures (!ok ==>
        heapEnd + EXPANSION_STEP > MAX_EXPANSION
        || Supplied(supply, n) < PagesBetween(heapStart, heapEnd + EXPANSION_STEP))
      ensures p != 0 ==> (
          && heapUsed == old(heapUsed) + size && grants == old(grants) + 1 && HEADER < p
          && Inserted(old(InUse(list.chunks)), InUse(list.chunks), Chunk(p - HEADER, true, size), k))
      ensures p != 0 ==> heapStart + HEADER <= p && p + size <= heapEnd
      decreases MAX_EXPANSION - heapEnd
    {
      if size == 0 {
        return 0, true, 0, 0;
      }
      p, k := Grant(size);
      ok, n := p != 0, 0;
      if p == 0 {
        ok := Expand(Supplied(supply, 0));
        if ok {
          p, ok, k, n := Allocate(size, supply[Least(1, |supply|)..]);
          n := n + 1;
        }
      }
    }

    /** An allocation from the heap as it is. */
    method Grant(size: nat) returns (p: nat, ghost k: nat)
      requires Valid() && 0 < size && HEADER + size < WORD
      modifies this, list
      ensures Valid() && heapStart == old(heapStart) && heapEnd == old(heapEnd)
      ensures p == 0 ==>
                && list.chunks == old(list.chunks) && heapUsed == old(heapUsed) && grants == old(grants)
                && forall c :: c in list.chunks ==> !Fits(c, size)
      ensures p != 0 ==> (
          && heapUsed == old(heapUsed) + size && grants == old(grants) + 1 && HEADER < p
          && Inserted(old(InUse(list.chunks)), InUse(list.chunks), Chunk(p - HEADER, true, size), k))
      ensures p != 0 ==> heapStart + HEADER <= p && p + size <= heapEnd
      ensures p != 0 && old(Inside()) ==> (Inside() <==> p + size + HEADER <= heapEnd)
    {
      k := 0;
      ghost var i;
      ghost var cs := list.chunks;
      p, i := list.Allocate(size);
      if p != 0 {
        GrantedHeap(cs, i, size, heapStart, heapEnd);
        k := |InUse(cs[..i])|;
        heapUsed := heapUsed + size;
        grants := grants + 1;
      }
    }

    /** Freeing takes the chunk off the chunks in use and its size off the bytes in use; a chunk already free is left.
        */
    method Free(p: nat, ghost i: nat)
      requires Valid() && i < |list.chunks| && p == list.chunks[i].at + HEADER
      modifies this, list
      ensures Valid() && heapEnd == old(heapEnd) && heapStart == old(heapStart) && grants == old(grants)
      ensures !old(list.chunks)[i].used ==> list.chunks == old(list.chunks) && heapUsed == old(heapUsed)
      ensures old(list.chunks)[i].used ==> heapUsed + old(list.chunks)[i].size == old(heapUsed)
      ensures (old(list.chunks)[i].used ==>
        var before, behind := InUse(old(list.chunks)[..i]), InUse(old(list.chunks)[i + 1..]);
        old(InUse(list.chunks)) == before + [old(list.chunks)[i]] + behind && InUse(list.chunks) == before + behind)
    {
      if list.chunks[i].used {
        ReleasedIs(list.chunks, i);
        WithinRemoved(InUse(list.chunks[..i]), InUse(list.chunks[i + 1..]), list.chunks[i], heapStart, heapEnd);
      }
      var size := list.Free(p, i);
      heapUsed := heapUsed - size;
    }
  }
}
