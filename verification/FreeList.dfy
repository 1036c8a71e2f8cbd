/** The free-list allocator: chunk headers in memory, linked in the order of their addresses. */
module FreeList {
  import opened ChunkList

  datatype Header = Header(next: nat, used: bool, size: nat)

  function First(cs: seq<Chunk>, end: nat): nat {
    if cs == [] then end else cs[0].at
  }

  /** The headers of a stretch of chunks are in memory, linked up to an end. */
  predicate Linked(mem: map<nat, Header>, cs: seq<Chunk>, end: nat) {
    cs != [] ==>
      && cs[0].at in mem && mem[cs[0].at] == Header(First(cs[1..], end), cs[0].used, cs[0].size)
      && Linked(mem, cs[1..], end)
  }

  lemma {:induction false} LinkedConcat(mem: map<nat, Header>, a: seq<Chunk>, b: seq<Chunk>, end: nat)
    ensures Linked(mem, a + b, end) <==> Linked(mem, a, First(b, end)) && Linked(mem, b, end)
  {
    if a == [] {
      assert a + b == b;
    } else {
      assert (a + b)[1..] == a[1..] + b;
      LinkedConcat(mem, a[1..], b, end);
    }
  }

  predicate Avoids(cs: seq<Chunk>, x: nat) {
    forall c :: c in cs ==> c.at != x
  }

  /** Writing elsewhere leaves a stretch linked. */
  lemma {:induction false} LinkedPut(mem: map<nat, Header>, cs: seq<Chunk>, end: nat, x: nat, h: Header)
    requires Linked(mem, cs, end) && Avoids(cs, x)
    ensures Linked(mem[x := h], cs, end)
  {
    if cs != [] {
      assert cs[0] in cs;
      LinkedPut(mem, cs[1..], end, x, h);
    }
  }

  lemma {:induction false} LinkedAt(mem: map<nat, Header>, cs: seq<Chunk>, end: nat, i: nat)
    requires Linked(mem, cs, end) && i < |cs|
    ensures cs[i].at in mem && mem[cs[i].at] == Header(First(cs[i + 1..], end), cs[i].used, cs[i].size)
  {
    if i > 0 {
      LinkedAt(mem, cs[1..], end, i - 1);
      assert cs[1..][i..] == cs[i + 1..];
    }
  }

  /** The chunks before and behind a place are elsewhere. */
  lemma AvoidsAround(a: seq<Chunk>, c: Chunk, b: seq<Chunk>, x: nat)
    requires InOrder(a + [c] + b) && c.at <= x < End(c)
    ensures Avoids(a, x) && Avoids(b, x)
  {
    var cs := a + [c] + b;
    assert cs[|a|] == c;
    forall d | d in a ensures d.at != x {
      var j: nat :| j < |a| && a[j] == d;
      assert cs[j] == d;
      Apart(cs, j, |a|);
    }
    forall d | d in b ensures d.at != x {
      var j: nat :| j < |b| && b[j] == d;
      assert cs[|a| + 1 + j] == d;
      Apart(cs, |a|, |a| + 1 + j);
    }
  }

  /** One header rewritten, and with it how the list goes on. */
  lemma Rewritten(mem: map<nat, Header>, a: seq<Chunk>, c: Chunk, b: seq<Chunk>, b': seq<Chunk>, c': Chunk)
    requires && InOrder(a + [c] + b) && Linked(mem, a + [c] + b, 0) && c'.at == c.at && Linked(mem, b', 0)
             && Avoids(b', c.at)
    ensures Linked(mem[c.at := Header(First(b', 0), c'.used, c'.size)], a + [c'] + b', 0)
  {
    var h := Header(First(b', 0), c'.used, c'.size);
    var mem' := mem[c.at := h];
    assert a + [c] + b == a + ([c] + b) && a + [c'] + b' == a + ([c'] + b');
    LinkedConcat(mem, a, [c] + b, 0);
    AvoidsAround(a, c, b, c.at);
    LinkedPut(mem, a, c.at, c.at, h);
    LinkedPut(mem, b', 0, c.at, h);
    assert ([c'] + b')[1..] == b';
    LinkedConcat(mem', a, [c'] + b', 0);
  }

  /** What is behind a place is linked there. */
  lemma LinkedBehind(mem: map<nat, Header>, cs: seq<Chunk>, i: nat)
    requires Linked(mem, cs, 0) && InOrder(cs) && i < |cs|
    ensures Linked(mem, cs[i + 1..], 0) && Avoids(cs[i + 1..], cs[i].at)
  {
    Around(cs, i);
    LinkedConcat(mem, cs[..i] + [cs[i]], cs[i + 1..], 0);
    AvoidsAround(cs[..i], cs[i], cs[i + 1..], cs[i].at);
  }

  /** A chunk split in memory. */
  lemma Splitted(mem: map<nat, Header>, cs: seq<Chunk>, i: nat, size: nat)
    requires Sound(cs) && Linked(mem, cs, 0) && i < |cs| && Fits(cs[i], size) && HEADER + size < WORD
    ensures var h := Halves(cs[i], size); var mem' := mem[h[1].at := Header(First(cs[i + 1..], 0), false, h[1].size)];
            Linked(mem'[h[0].at := Header(h[1].at, true, size)], Granted(cs, i, size), 0)
  {
    var a, c, b := cs[..i], cs[i], cs[i + 1..];
    var h := Halves(c, size);
    var n := Header(First(b, 0), false, h[1].size);
    Around(cs, i);
    EndBound(cs, i);
    HalvesAre(c, size);
    AvoidsAround(a, c, b, h[1].at);
    AvoidsAround(a, c, b, c.at);
    LinkedPut(mem, cs, 0, h[1].at, n);
    LinkedBehind(mem[h[1].at := n], cs, i);
    var rest := [h[1]] + b;
    assert rest[1..] == b && a + [h[0]] + rest == Granted(cs, i, size);
    Rewritten(mem[h[1].at := n], a, c, b, rest, h[0]);
  }

  /** The place of a chunk and the next one, both free, joined. */
  function JoinedAt(cs: seq<Chunk>, i: nat): seq<Chunk>
    requires i + 1 < |cs|
  {
    cs[..i] + [Chunk(cs[i].at, false, cs[i].size + cs[i + 1].size)] + cs[i + 2..]
  }

  lemma JoinedAtLinked(mem: map<nat, Header>, cs: seq<Chunk>, i: nat)
    requires Linked(mem, cs, 0) && InOrder(cs) && i + 1 < |cs|
    ensures Linked(mem[cs[i].at := Header(First(cs[i + 2..], 0), false, cs[i].size + cs[i + 1].size)],
                JoinedAt(cs, i), 0)
    ensures InOrder(JoinedAt(cs, i))
  {
    var a, c, d, b := cs[..i], cs[i], cs[i + 1], cs[i + 2..];
    Around(cs, i);
    assert cs[i + 1..] == [d] + b;
    LinkedBehind(mem, cs, i);
    LinkedBehind(mem, cs, i + 1);
    var j := Chunk(c.at, false, c.size + d.size);
    Rewritten(mem, a, c, cs[i + 1..], b, j);
    JoinedAtOrder(a, c, d, b);
  }

  lemma JoinedAtOrder(a: seq<Chunk>, c: Chunk, d: Chunk, b: seq<Chunk>)
    requires InOrder(a + [c] + ([d] + b))
    ensures InOrder(a + [Chunk(c.at, false, c.size + d.size)] + b)
  {
    var j := Chunk(c.at, false, c.size + d.size);
    InOrderConcat(a, [c]);
    InOrderConcat(a + [c], [d] + b);
    InOrderConcat([d], b);
    InOrderConcat(a, [j]);
    InOrderConcat(a + [j], b);
  }

  /** How far joining free neighbours has come. */
  lemma MergeStep(cs: seq<Chunk>, i: nat)
    requires i + 1 < |cs|
    ensures (!cs[i].used && !cs[i + 1].used ==>
      cs[..i] + Merged(cs[i..]) == JoinedAt(cs, i)[..i] + Merged(JoinedAt(cs, i)[i..]))
    ensures cs[i].used || cs[i + 1].used ==> cs[..i] + Merged(cs[i..]) == cs[..i + 1] + Merged(cs[i + 1..])
  {
    var t := JoinedAt(cs, i);
    assert cs[i..][2..] == cs[i + 2..] && cs[i..][1..] == cs[i + 1..];
    assert t[i..] == [t[i]] + cs[i + 2..] && t[..i] == cs[..i];
    assert cs[..i + 1] == cs[..i] + [cs[i]];
  }

  class Allocator {
    var head: nat
    var mem: map<nat, Header>
    ghost var chunks: seq<Chunk>

    ghost predicate Threaded()
      reads this
    {
      chunks != [] && head == chunks[0].at > 0 && InOrder(chunks) && Linked(mem, chunks, 0)
    }

    ghost predicate Valid()
      reads this
    {
      Threaded() && Sound(chunks)
    }

    /** One free chunk over a region. */
    constructor (start: nat, end: nat)
      requires 0 < start <= end && end + HEADER <= WORD
      ensures Valid() && chunks == [Chunk(start, false, end - start)]
    {
      head, mem := start, map[start := Header(0, false, end - start)];
      chunks := [Chunk(start, false, end - start)];
    }

    /** From a chunk to the next one. */
    lemma Next(i: nat)
      requires Threaded() && i < |chunks|
      ensures && chunks[i].at in mem
              && mem[chunks[i].at] == Header(First(chunks[i + 1..], 0), chunks[i].used, chunks[i].size)
      ensures mem[chunks[i].at].next == (if i + 1 < |chunks| then chunks[i + 1].at else 0)
      ensures 0 < chunks[i].at && (mem[chunks[i].at].next == 0 <==> i + 1 == |chunks|)
    {
      LinkedAt(mem, chunks, 0, i);
      if i > 0 {
        Apart(chunks, 0, i);
      }
      if i + 1 < |chunks| {
        Apart(chunks, 0, i + 1);
      }
    }

    /** The first free chunk that is large enough is split; none is only if there is none. */
    method Allocate(size: nat) returns (p: nat, ghost i: nat)
      requires Valid() && HEADER + size < WORD
      modifies this
      ensures Valid() && head == old(head)
      ensures p == 0 ==> chunks == old(chunks) && (size == 0 || forall c :: c in chunks ==> !Fits(c, size))
      ensures p != 0 ==> (
          && 0 < size && i < |old(chunks)| && Fits(old(chunks)[i], size)
          && (forall c :: c in old(chunks)[..i] ==> !Fits(c, size))
          && chunks == Granted(old(chunks), i, size) && p == old(chunks)[i].at + HEADER)
    {
      p, i := 0, 0;
      if size == 0 {
        return;
      }
      var curr := head;
      while curr != 0
        invariant Valid() && head == old(head) && chunks == old(chunks)
                  && i <= |chunks| && curr == First(chunks[i..], 0)
        invariant curr == 0 ==> i == |chunks|
        invariant forall c :: c in chunks[..i] ==> !Fits(c, size)
        decreases |chunks| - i
      {
        Next(i);
        if !mem[curr].used && (HEADER + size) % WORD <= mem[curr].size {
          SplitAt(curr, size, i);
          p := curr + HEADER;
          return;
        }
        curr := mem[curr].next;
        i := i + 1;
        if i < |chunks| {
          Next(i);
        }
      }
      assert chunks[..i] == chunks;
    }

    /** A chunk split in two, the first part in use. */
    method SplitAt(curr: nat, size: nat, ghost i: nat)
      requires Valid() && i < |chunks| && curr == chunks[i].at && Fits(chunks[i], size) && HEADER + size < WORD
      modifies this
      ensures Valid() && head == old(head) && chunks == Granted(old(chunks), i, size)
    {
      Next(i);
      Splitted(mem, chunks, i, size);
      GrantedIs(chunks, i, size);
      var split := (curr + HEADER + size) % WORD;
      mem := mem[split := Header(mem[curr].next, false, mem[curr].size - (HEADER + size))];
      mem := mem[curr := Header(split, true, size)];
      chunks := Granted(chunks, i, size);
    }

    /** Free neighbours joined along the whole list. */
    method MergeChunks()
      requires Threaded()
      modifies this
      ensures Threaded() && head == old(head) && chunks == Merged(old(chunks))
    {
      var curr := head;
      ghost var i: nat := 0;
      Next(0);
      while mem[curr].next != 0
        invariant Threaded() && head == old(head) && i < |chunks| && curr == chunks[i].at && curr in mem
        invariant && mem[curr].next == (if i + 1 < |chunks| then chunks[i + 1].at else 0)
                  && (mem[curr].next == 0 <==> i + 1 == |chunks|)
        invariant Merged(old(chunks)) == chunks[..i] + Merged(chunks[i..])
        decreases |chunks| - i
      {
        Next(i);
        Next(i + 1);
        MergeStep(chunks, i);
        var next := mem[curr].next;
        if !mem[curr].used && !mem[next].used {
          JoinedAtLinked(mem, chunks, i);
          assert chunks[i + 1 + 1..] == chunks[i + 2..];
          mem := mem[curr := Header(mem[next].next, false, mem[curr].size + mem[next].size)];
          chunks := JoinedAt(chunks, i);
        } else {
          curr := next;
          i := i + 1;
        }
        Next(i);
      }
      assert chunks[i..] == [chunks[i]] && chunks == chunks[..i] + [chunks[i]];
    }

    /** A chunk given back, and its size; nothing for one that is free already. */
    method Free(p: nat, ghost i: nat) returns (size: nat)
      requires Valid() && i < |chunks| && p == chunks[i].at + HEADER
      modifies this
      ensures Valid() && head == old(head)
      ensures !old(chunks)[i].used ==> size == 0 && chunks == old(chunks)
      ensures old(chunks)[i].used ==> size == old(chunks)[i].size && chunks == Merged(Released(old(chunks), i))
    {
      var at := p - HEADER;
      Next(i);
      if !mem[at].used {
        return 0;
      }
      ReleasedIs(chunks, i);
      LinkedBehind(mem, chunks, i);
      Around(chunks, i);
      Rewritten(mem, chunks[..i], chunks[i], chunks[i + 1..], chunks[i + 1..], chunks[i].(used := false));
      ReleasedOrder(chunks[..i], chunks[i], chunks[i + 1..]);
      mem := mem[at := mem[at].(used := false)];
      chunks := Released(chunks, i);
      size := mem[at].size;
      MergeChunks();
    }

    /** More room behind the last chunk. */
    method Expand(amount: nat)
      requires Valid() && End(chunks[|chunks| - 1]) + HEADER + amount <= WORD
      modifies this
      ensures Valid() && head == old(head) && chunks == Merged(Grown(old(chunks), amount))
    {
      var tail := head;
      ghost var i: nat := 0;
      Next(0);
      while mem[tail].next != 0
        invariant Valid() && head == old(head) && chunks == old(chunks)
                  && i < |chunks| && tail == chunks[i].at && tail in mem
        invariant && mem[tail].next == (if i + 1 < |chunks| then chunks[i + 1].at else 0)
                  && (mem[tail].next == 0 <==> i + 1 == |chunks|)
        decreases |chunks| - i
      {
        Next(i + 1);
        tail := mem[tail].next;
        i := i + 1;
      }
      Append(tail, amount, i);
      GrownIs(old(chunks), amount);
      MergeChunks();
    }

    /** A free chunk linked behind the last one. */
    method Append(tail: nat, amount: nat, ghost i: nat)
      requires Valid() && i == |chunks| - 1 && tail == chunks[i].at
      modifies this
      ensures Threaded() && head == old(head) && chunks == Grown(old(chunks), amount)
    {
      Next(i);
      ghost var n := Chunk(End(chunks[i]), false, amount);
      Around(chunks, i);
      InOrderConcat(chunks, [n]);
      AppendLinked(mem, chunks, amount);
      var newChunk := tail + HEADER + mem[tail].size;
      mem := mem[newChunk := Header(0, false, amount)];
      mem := mem[tail := mem[tail].(next := newChunk)];
      chunks := Grown(chunks, amount);
    }
  }

  lemma AppendLinked(mem: map<nat, Header>, cs: seq<Chunk>, amount: nat)
    requires cs != [] && InOrder(cs) && Linked(mem, cs, 0)
    ensures var c := cs[|cs| - 1];
            Linked(mem[End(c) := Header(0, false, amount)][c.at := Header(End(c), c.used, c.size)], Grown(cs, amount),
                0)
  {
    var i := |cs| - 1;
    var a, c := cs[..i], cs[i];
    var n := Chunk(End(c), false, amount);
    var h := Header(0, false, amount);
    forall d | d in cs ensures d.at != n.at {
      var j: nat :| j < |cs| && cs[j] == d;
      if j < i {
        Apart(cs, j, i);
      }
    }
    LinkedPut(mem, cs, 0, n.at, h);
    assert cs == a + [c] + [] && Grown(cs, amount) == a + [c] + [n];
    assert [n][1..] == [];
    Rewritten(mem[n.at := h], a, c, [], [n], c);
  }
}
