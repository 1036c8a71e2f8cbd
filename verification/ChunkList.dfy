/** The chunks of the free-list allocator, in the order of its list. */
module ChunkList {

  const HEADER := 17
  const WORD := 0x1_0000_0000_0000_0000

  /** A chunk: where its header is, whether it is in use, how many bytes it holds behind the header. */
  datatype Chunk = Chunk(at: nat, used: bool, size: nat)

  function End(c: Chunk): nat {
    c.at + HEADER + c.size
  }

  function Total(cs: seq<Chunk>): nat {
    if cs == [] then 0 else cs[0].size + Total(cs[1..])
  }

  function UsedTotal(cs: seq<Chunk>): nat {
    if cs == [] then 0 else (if cs[0].used then cs[0].size else 0) + UsedTotal(cs[1..])
  }

  /** The chunks in use, in order. */
  function InUse(cs: seq<Chunk>): seq<Chunk> {
    if cs == [] then [] else (if cs[0].used then [cs[0]] else []) + InUse(cs[1..])
  }

  /** Each chunk ends before the next one begins. */
  predicate InOrder(cs: seq<Chunk>) {
    |cs| >= 2 ==> End(cs[0]) <= cs[1].at && InOrder(cs[1..])
  }

  /** No two neighbours are both free. */
  predicate Joined(cs: seq<Chunk>) {
    |cs| >= 2 ==> (cs[0].used || cs[1].used) && Joined(cs[1..])
  }

  /** What every run of the allocator keeps. */
  predicate Sound(cs: seq<Chunk>) {
    cs != [] && 0 < cs[0].at && InOrder(cs) && Joined(cs) && !cs[|cs| - 1].used && End(cs[|cs| - 1]) <= WORD
  }

  // ---- lists put together ----

  lemma {:induction false} TotalConcat(a: seq<Chunk>, b: seq<Chunk>)
    ensures && Total(a + b) == Total(a) + Total(b) && UsedTotal(a + b) == UsedTotal(a) + UsedTotal(b)
            && InUse(a + b) == InUse(a) + InUse(b)
  {
    if a == [] {
      assert a + b == b;
    } else {
      assert (a + b)[1..] == a[1..] + b;
      TotalConcat(a[1..], b);
    }
  }

  lemma {:induction false} InOrderConcat(a: seq<Chunk>, b: seq<Chunk>)
    ensures InOrder(a + b) <==> InOrder(a) && InOrder(b) && (a != [] && b != [] ==> End(a[|a| - 1]) <= b[0].at)
  {
    if a == [] {
      assert a + b == b;
    } else {
      assert (a + b)[1..] == a[1..] + b;
      InOrderConcat(a[1..], b);
    }
  }

  lemma {:induction false} JoinedConcat(a: seq<Chunk>, b: seq<Chunk>)
    ensures Joined(a + b) <==> Joined(a) && Joined(b) && (a != [] && b != [] ==> a[|a| - 1].used || b[0].used)
  {
    if a == [] {
      assert a + b == b;
    } else {
      assert (a + b)[1..] == a[1..] + b;
      JoinedConcat(a[1..], b);
    }
  }

  /** Any two chunks lie apart, in the order of the list. */
  lemma {:induction false} Apart(cs: seq<Chunk>, i: nat, j: nat)
    requires InOrder(cs) && i < j < |cs|
    ensures End(cs[i]) <= cs[j].at
  {
    if i > 0 {
      Apart(cs[1..], i - 1, j - 1);
    } else if j > 1 {
      Apart(cs[1..], 0, j - 1);
    }
  }

  lemma EndBound(cs: seq<Chunk>, i: nat)
    requires Sound(cs) && i < |cs|
    ensures End(cs[i]) <= End(cs[|cs| - 1]) && (i == |cs| - 1 || cs[i].at + HEADER <= cs[|cs| - 1].at)
  {
    if i < |cs| - 1 {
      Apart(cs, i, |cs| - 1);
    }
  }

  /** A list around one of its places. */
  lemma Around(cs: seq<Chunk>, i: nat)
    requires i < |cs|
    ensures cs == cs[..i] + [cs[i]] + cs[i + 1..]
  {
  }

  lemma OneChunk(c: Chunk)
    ensures && Total([c]) == c.size && UsedTotal([c]) == (if c.used then c.size else 0)
            && InUse([c]) == (if c.used then [c] else [])
  {
    assert [c][1..] == [];
  }

  lemma Three(a: seq<Chunk>, c: Chunk, b: seq<Chunk>)
    ensures Total(a + [c] + b) == Total(a) + c.size + Total(b)
    ensures UsedTotal(a + [c] + b) == UsedTotal(a) + (if c.used then c.size else 0) + UsedTotal(b)
    ensures InUse(a + [c] + b) == InUse(a) + (if c.used then [c] else []) + InUse(b)
  {
    OneChunk(c);
    TotalConcat(a, [c]);
    TotalConcat(a + [c], b);
  }

  // ---- allocating ----

  /** The bytes an allocation takes off a chunk, as a machine word. */
  function Need(size: nat): nat {
    (HEADER + size) % WORD
  }

  predicate Fits(c: Chunk, size: nat) {
    !c.used && Need(size) <= c.size
  }

  /** The chunk granted and the rest of it, as machine words. */
  function Halves(c: Chunk, size: nat): seq<Chunk>
    requires Fits(c, size)
  {
    [Chunk(c.at, true, size), Chunk((c.at + HEADER + size) % WORD, false, c.size - Need(size))]
  }

  function Granted(cs: seq<Chunk>, i: nat, size: nat): seq<Chunk>
    requires i < |cs| && Fits(cs[i], size)
  {
    cs[..i] + Halves(cs[i], size) + cs[i + 1..]
  }

  /** The two parts lie where the chunk lay, exactly. */
  lemma HalvesAre(c: Chunk, size: nat)
    requires Fits(c, size) && HEADER + size < WORD && End(c) <= WORD
    ensures var h := Halves(c, size);
            && End(h[0]) == h[1].at && End(h[1]) == End(c) && Total(h) + HEADER == c.size && UsedTotal(h) == size
            && InUse(h) == [h[0]]
  {
    var h := Halves(c, size);
    assert h[1..] == [h[1]];
    OneChunk(h[1]);
  }

  /** An allocation keeps the list sound, takes a header off the total and adds just the chunk granted. */
  lemma GrantedIs(cs: seq<Chunk>, i: nat, size: nat)
    requires Sound(cs) && i < |cs| && Fits(cs[i], size) && HEADER + size < WORD
    ensures var t := Granted(cs, i, size);
            && Sound(t) && t[0].at == cs[0].at && End(t[|t| - 1]) == End(cs[|cs| - 1])
            && Total(t) + HEADER == Total(cs) && UsedTotal(t) == UsedTotal(cs) + size
    ensures InUse(cs) == InUse(cs[..i]) + InUse(cs[i + 1..])
    ensures InUse(Granted(cs, i, size)) == InUse(cs[..i]) + [Chunk(cs[i].at, true, size)] + InUse(cs[i + 1..])
  {
    var a, c, b := cs[..i], cs[i], cs[i + 1..];
    Around(cs, i);
    EndBound(cs, i);
    HalvesAre(c, size);
    GrantedTotals(a, c, b, size);
    GrantedOrder(a, c, b, size);
    GrantedJoined(a, c, b, size);
  }

  lemma GrantedTotals(a: seq<Chunk>, c: Chunk, b: seq<Chunk>, size: nat)
    requires Fits(c, size) && HEADER + size < WORD && End(c) <= WORD
    ensures var t := a + Halves(c, size) + b;
            && Total(t) + HEADER == Total(a + [c] + b) && UsedTotal(t) == UsedTotal(a + [c] + b) + size
            && InUse(a + [c] + b) == InUse(a) + InUse(b) && InUse(t) == InUse(a) + [Chunk(c.at, true, size)] + InUse(b)
  {
    var h := Halves(c, size);
    HalvesAre(c, size);
    Three(a, c, b);
    TotalConcat(a, h);
    TotalConcat(a + h, b);
  }

  lemma GrantedOrder(a: seq<Chunk>, c: Chunk, b: seq<Chunk>, size: nat)
    requires Fits(c, size) && HEADER + size < WORD && End(c) <= WORD && InOrder(a + [c] + b)
    ensures InOrder(a + Halves(c, size) + b)
  {
    var h := Halves(c, size);
    HalvesAre(c, size);
    InOrderConcat(a, [c]);
    InOrderConcat(a + [c], b);
    InOrderConcat(a, h);
    InOrderConcat(a + h, b);
  }

  lemma GrantedJoined(a: seq<Chunk>, c: Chunk, b: seq<Chunk>, size: nat)
    requires Fits(c, size) && Joined(a + [c] + b)
    ensures Joined(a + Halves(c, size) + b)
  {
    var h := Halves(c, size);
    JoinedConcat(a, [c]);
    JoinedConcat(a + [c], b);
    JoinedConcat(a, h);
    JoinedConcat(a + h, b);
  }

  /** The sum of a size and the header wraps around for the largest sizes; a list stays sound exactly if it does not. */
  lemma GrantedSoundIff(cs: seq<Chunk>, i: nat, size: nat)
    requires Sound(cs) && i < |cs| && Fits(cs[i], size) && size < WORD
    ensures Sound(Granted(cs, i, size)) <==> HEADER + size < WORD
  {
    var t := Granted(cs, i, size);
    if HEADER + size < WORD {
      GrantedIs(cs, i, size);
    } else {
      assert t[i] == Chunk(cs[i].at, true, size) && t[i + 1] == Halves(cs[i], size)[1];
      if Sound(t) {
        Apart(t, i, i + 1);
        assert false;
      }
    }
  }

  // ---- joining free neighbours ----

  function Merged(cs: seq<Chunk>): seq<Chunk>
    decreases |cs|
  {
    if |cs| < 2 then cs
    else if !cs[0].used && !cs[1].used then Merged([Chunk(cs[0].at, false, cs[0].size + cs[1].size)] + cs[2..])
    else [cs[0]] + Merged(cs[1..])
  }

  /** Joining free neighbours loses no byte held and touches no chunk in use. */
  lemma {:induction false} MergedTotals(cs: seq<Chunk>)
    ensures Total(Merged(cs)) == Total(cs) && UsedTotal(Merged(cs)) == UsedTotal(cs) && InUse(Merged(cs)) == InUse(cs)
    decreases |cs|
  {
    if |cs| >= 2 {
      if !cs[0].used && !cs[1].used {
        var c := Chunk(cs[0].at, false, cs[0].size + cs[1].size);
        assert ([c] + cs[2..])[1..] == cs[2..] == cs[1..][1..];
        MergedTotals([c] + cs[2..]);
      } else {
        MergedTotals(cs[1..]);
        assert ([cs[0]] + Merged(cs[1..]))[1..] == Merged(cs[1..]);
      }
    }
  }

  lemma {:induction false} MergedShape(cs: seq<Chunk>)
    requires cs != [] && InOrder(cs)
    ensures var m := Merged(cs);
            && m != [] && m[0].at == cs[0].at && m[0].used == cs[0].used && InOrder(m) && Joined(m)
            && m[|m| - 1].used == cs[|cs| - 1].used && End(m[|m| - 1]) <= End(cs[|cs| - 1])
    decreases |cs|
  {
    if |cs| >= 2 {
      if !cs[0].used && !cs[1].used {
        var c := Chunk(cs[0].at, false, cs[0].size + cs[1].size);
        var t := [c] + cs[2..];
        assert t[1..] == cs[2..] == cs[1..][1..];
        MergedShape(t);
      } else {
        MergedShape(cs[1..]);
        var m := Merged(cs[1..]);
        assert ([cs[0]] + m)[1..] == m;
      }
    }
  }

  /** Joining does nothing more once it has been done. */
  lemma {:induction false} MergedTwice(cs: seq<Chunk>)
    requires Joined(cs)
    ensures Merged(cs) == cs
    decreases |cs|
  {
    if |cs| >= 2 {
      MergedTwice(cs[1..]);
    }
  }

  // ---- freeing and growing ----

  function Released(cs: seq<Chunk>, i: nat): seq<Chunk>
    requires i < |cs|
  {
    cs[..i] + [cs[i].(used := false)] + cs[i + 1..]
  }

  /** Freeing a chunk keeps the list sound, takes it off the chunks in use and keeps the bytes held. */
  lemma ReleasedIs(cs: seq<Chunk>, i: nat)
    requires Sound(cs) && i < |cs| && cs[i].used
    ensures var m := Merged(Released(cs, i));
            && Sound(m) && m[0].at == cs[0].at && End(m[|m| - 1]) <= End(cs[|cs| - 1]) && Total(m) == Total(cs)
            && UsedTotal(m) + cs[i].size == UsedTotal(cs)
    ensures InUse(cs) == InUse(cs[..i]) + [cs[i]] + InUse(cs[i + 1..])
    ensures InUse(Merged(Released(cs, i))) == InUse(cs[..i]) + InUse(cs[i + 1..])
  {
    var a, c, b := cs[..i], cs[i], cs[i + 1..];
    Around(cs, i);
    ReleasedTotals(a, c, b);
    ReleasedOrder(a, c, b);
    MergedTotals(Released(cs, i));
    MergedShape(Released(cs, i));
  }

  lemma ReleasedTotals(a: seq<Chunk>, c: Chunk, b: seq<Chunk>)
    requires c.used
    ensures var t := a + [c.(used := false)] + b;
            && Total(t) == Total(a + [c] + b) && UsedTotal(t) + c.size == UsedTotal(a + [c] + b)
            && InUse(a + [c] + b) == InUse(a) + [c] + InUse(b) && InUse(t) == InUse(a) + InUse(b)
  {
    Three(a, c, b);
    Three(a, c.(used := false), b);
  }

  lemma ReleasedOrder(a: seq<Chunk>, c: Chunk, b: seq<Chunk>)
    requires InOrder(a + [c] + b)
    ensures InOrder(a + [c.(used := false)] + b)
  {
    var f := c.(used := false);
    InOrderConcat(a, [c]);
    InOrderConcat(a + [c], b);
    InOrderConcat(a, [f]);
    InOrderConcat(a + [f], b);
  }

  function Grown(cs: seq<Chunk>, amount: nat): seq<Chunk>
    requires cs != []
  {
    cs + [Chunk(End(cs[|cs| - 1]), false, amount)]
  }

  /** Growing keeps the list sound and the chunks in use, adds the amount to the bytes held, and to the free chunk at
      the end. */
  lemma GrownIs(cs: seq<Chunk>, amount: nat)
    requires Sound(cs) && End(cs[|cs| - 1]) + HEADER + amount <= WORD
    ensures var m := Merged(Grown(cs, amount));
            && Sound(m) && m[0].at == cs[0].at && End(m[|m| - 1]) == End(cs[|cs| - 1]) + amount
            && Total(m) == Total(cs) + amount && UsedTotal(m) == UsedTotal(cs) && InUse(m) == InUse(cs)
            && m[|m| - 1] == Chunk(cs[|cs| - 1].at, false, cs[|cs| - 1].size + amount)
  {
    var n := Chunk(End(cs[|cs| - 1]), false, amount);
    OneChunk(n);
    TotalConcat(cs, [n]);
    InOrderConcat(cs, [n]);
    MergedTotals(Grown(cs, amount));
    MergedShape(Grown(cs, amount));
    GrownLast(cs, amount);
  }

  lemma {:induction false} GrownLast(cs: seq<Chunk>, amount: nat)
    requires cs != [] && Joined(cs) && !cs[|cs| - 1].used
    ensures Merged(Grown(cs, amount)) == cs[..|cs| - 1] + [Chunk(cs[|cs| - 1].at, false, cs[|cs| - 1].size + amount)]
  {
    if |cs| > 1 {
      assert Grown(cs, amount)[1..] == Grown(cs[1..], amount);
      GrownLast(cs[1..], amount);
      assert cs[1..][..|cs| - 2] == cs[..|cs| - 1][1..];
    }
  }
}
