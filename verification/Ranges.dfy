/** The ranges of the virtual-address allocator, in the order of its list. */
module Ranges {

  const PAGE := 0x1000
  const WORD := 0x1_0000_0000_0000_0000

  datatype Range = Range(base: nat, pages: nat, used: bool)

  function End(r: Range): nat {
    r.base + r.pages * PAGE
  }

  /** The ranges lie end to end from one address to another, none of them empty. */
  predicate Tiles(rs: seq<Range>, start: nat, end: nat) {
    if rs == [] then start == end
    else rs[0].base == start && 0 < rs[0].pages && Tiles(rs[1..], End(rs[0]), end)
  }

  /** No two neighbours are both free. */
  predicate Joined(rs: seq<Range>) {
    |rs| >= 2 ==> (rs[0].used || rs[1].used) && Joined(rs[1..])
  }

  predicate Sound(rs: seq<Range>, start: nat, end: nat) {
    Tiles(rs, start, end) && Joined(rs) && end < WORD
  }

  function Alone(r: Range): seq<Range> {
    if r.used then [r] else []
  }

  /** The ranges in use, in order. */
  function InUse(rs: seq<Range>): seq<Range> {
    if rs == [] then [] else Alone(rs[0]) + InUse(rs[1..])
  }

  function Pages(rs: seq<Range>): nat {
    if rs == [] then 0 else rs[0].pages + Pages(rs[1..])
  }

  // ---- lists put together ----

  function Middle(rs: seq<Range>, start: nat): nat {
    if rs == [] then start else End(rs[|rs| - 1])
  }

  lemma {:induction false} TilesConcat(a: seq<Range>, b: seq<Range>, start: nat, end: nat)
    ensures Tiles(a + b, start, end) <==> Tiles(a, start, Middle(a, start)) && Tiles(b, Middle(a, start), end)
  {
    if a == [] {
      assert a + b == b;
    } else {
      assert (a + b)[1..] == a[1..] + b;
      TilesConcat(a[1..], b, End(a[0]), end);
    }
  }

  lemma {:induction false} JoinedConcat(a: seq<Range>, b: seq<Range>)
    ensures Joined(a + b) <==> Joined(a) && Joined(b) && (a != [] && b != [] ==> a[|a| - 1].used || b[0].used)
  {
    if a == [] {
      assert a + b == b;
    } else {
      assert (a + b)[1..] == a[1..] + b;
      JoinedConcat(a[1..], b);
    }
  }

  lemma {:induction false} InUseConcat(a: seq<Range>, b: seq<Range>)
    ensures InUse(a + b) == InUse(a) + InUse(b)
  {
    if a == [] {
      assert a + b == b;
    } else {
      assert (a + b)[1..] == a[1..] + b && (a + b)[0] == a[0];
      InUseConcat(a[1..], b);
      assert Alone(a[0]) + (InUse(a[1..]) + InUse(b)) == (Alone(a[0]) + InUse(a[1..])) + InUse(b);
    }
  }

  lemma Around(rs: seq<Range>, i: nat)
    requires i < |rs|
    ensures rs == rs[..i] + [rs[i]] + rs[i + 1..]
  {
  }

  lemma {:induction false} TilesForward(rs: seq<Range>, start: nat, end: nat)
    requires Tiles(rs, start, end)
    ensures end == start + Pages(rs) * PAGE
  {
    if rs != [] {
      TilesForward(rs[1..], End(rs[0]), end);
    }
  }

  /** Ranges of a tiling lie apart in their order, so that their bases differ. */
  lemma {:induction false} Apart(rs: seq<Range>, start: nat, end: nat, i: nat, j: nat)
    requires Tiles(rs, start, end) && i < j < |rs|
    ensures End(rs[i]) <= rs[j].base && rs[i].base < rs[j].base
  {
    if i > 0 {
      Apart(rs[1..], End(rs[0]), end, i - 1, j - 1);
    } else if j > 1 {
      Apart(rs[1..], End(rs[0]), end, 0, j - 1);
    }
  }

  lemma {:induction false} Within(rs: seq<Range>, start: nat, end: nat, i: nat)
    requires Tiles(rs, start, end) && i < |rs|
    ensures start <= rs[i].base && 0 < rs[i].pages && End(rs[i]) <= end
  {
    if i > 0 {
      Within(rs[1..], End(rs[0]), end, i - 1);
    } else {
      TilesForward(rs[1..], End(rs[0]), end);
    }
  }

  lemma OneRange(r: Range, start: nat, end: nat)
    ensures InUse([r]) == Alone(r) && Joined([r])
    ensures Tiles([r], start, end) <==> r.base == start && 0 < r.pages && End(r) == end
  {
    assert [r][1..] == [];
  }

  lemma TwoRanges(r: Range, n: Range, start: nat, end: nat)
    ensures InUse([r, n]) == Alone(r) + Alone(n) && (Joined([r, n]) <==> r.used || n.used)
    ensures Tiles([r, n], start, end) <==>
              r.base == start && 0 < r.pages && End(r) == n.base && 0 < n.pages && End(n) == end
  {
    assert [r] + [n] == [r, n];
    OneRange(r, start, End(r));
    OneRange(n, End(r), end);
    InUseConcat([r], [n]);
    JoinedConcat([r], [n]);
    TilesConcat([r], [n], start, end);
  }

  /** A stretch of ranges replaced by others that fill its place. */
  lemma TilesReplaced(a: seq<Range>, r: seq<Range>, b: seq<Range>, m: seq<Range>, start: nat, end: nat, from: nat,
      to: nat)
    requires && Tiles(a + r + b, start, end) && r != [] && m != [] && r[0].base == from && End(r[|r| - 1]) == to
             && Tiles(m, from, to)
    ensures Tiles(a + m + b, start, end)
  {
    TilesConcat(a + r, b, start, end);
    TilesConcat(a, r, start, to);
    TilesLast(m, from, to);
    TilesConcat(a, m, start, to);
    TilesConcat(a + m, b, start, end);
  }

  lemma InUseThree(a: seq<Range>, m: seq<Range>, b: seq<Range>)
    ensures InUse(a + m + b) == InUse(a) + InUse(m) + InUse(b)
  {
    InUseConcat(a, m);
    InUseConcat(a + m, b);
  }

  /** One free range replaced by others that fill its place. */
  lemma Replaced(a: seq<Range>, r: Range, b: seq<Range>, m: seq<Range>, start: nat, end: nat)
    requires Sound(a + [r] + b, start, end) && m != [] && Tiles(m, r.base, End(r)) && Joined(m) && !r.used
    ensures Sound(a + m + b, start, end)
    ensures InUse(a + [r] + b) == InUse(a) + InUse(b) && InUse(a + m + b) == InUse(a) + InUse(m) + InUse(b)
  {
    TilesReplaced(a, [r], b, m, start, end, r.base, End(r));
    JoinedConcat(a, [r]);
    JoinedConcat(a + [r], b);
    JoinedConcat(a, m);
    JoinedConcat(a + m, b);
    OneRange(r, start, end);
    InUseThree(a, [r], b);
    InUseThree(a, m, b);
  }

  lemma {:induction false} TilesLast(m: seq<Range>, start: nat, end: nat)
    requires m != [] && Tiles(m, start, end)
    ensures End(m[|m| - 1]) == end
  {
    if |m| > 1 {
      TilesLast(m[1..], End(m[0]), end);
    }
  }

  // ---- allocating ----

  function Parts(r: Range, pages: nat): seq<Range>
    requires pages <= r.pages
  {
    if pages < r.pages then [Range(r.base, pages, true), Range(r.base + pages * PAGE, r.pages - pages, false)]
    else [Range(r.base, pages, true)]
  }

  function Taken(rs: seq<Range>, i: nat, pages: nat): seq<Range>
    requires i < |rs| && pages <= rs[i].pages
  {
    rs[..i] + Parts(rs[i], pages) + rs[i + 1..]
  }

  lemma PartsAre(r: Range, pages: nat)
    requires 0 < pages <= r.pages
    ensures && Tiles(Parts(r, pages), r.base, End(r)) && Joined(Parts(r, pages))
            && InUse(Parts(r, pages)) == [Range(r.base, pages, true)]
  {
    var p, n := Range(r.base, pages, true), Range(r.base + pages * PAGE, r.pages - pages, false);
    OneRange(p, r.base, End(r));
    TwoRanges(p, n, r.base, End(r));
  }

  /** An allocation of at least a page keeps the tiling and adds just the range granted. */
  lemma TakenIs(rs: seq<Range>, i: nat, pages: nat, start: nat, end: nat)
    requires Sound(rs, start, end) && i < |rs| && !rs[i].used && 0 < pages <= rs[i].pages
    ensures Sound(Taken(rs, i, pages), start, end)
    ensures InUse(rs) == InUse(rs[..i]) + InUse(rs[i + 1..])
    ensures InUse(Taken(rs, i, pages)) == InUse(rs[..i]) + [Range(rs[i].base, pages, true)] + InUse(rs[i + 1..])
  {
    Around(rs, i);
    PartsAre(rs[i], pages);
    Replaced(rs[..i], rs[i], rs[i + 1..], Parts(rs[i], pages), start, end);
  }

  /** An allocation of no page breaks the tiling: it gives out an empty range with the base of the next one. */
  lemma TakenSoundIff(rs: seq<Range>, i: nat, pages: nat, start: nat, end: nat)
    requires Sound(rs, start, end) && i < |rs| && !rs[i].used && pages <= rs[i].pages
    ensures Sound(Taken(rs, i, pages), start, end) <==> 0 < pages
  {
    var t := Taken(rs, i, pages);
    if 0 < pages {
      TakenIs(rs, i, pages, start, end);
    } else {
      assert t[i] == Range(rs[i].base, 0, true);
      if Sound(t, start, end) {
        Within(t, start, end, i);
        assert false;
      }
    }
  }

  // ---- joining free neighbours ----

  predicate Mergeable(r: Range, n: Range) {
    !r.used && !n.used && End(r) == n.base
  }

  function Merged(rs: seq<Range>): seq<Range>
    decreases |rs|
  {
    if |rs| < 2 then rs
    else if Mergeable(rs[0], rs[1]) then Merged([Range(rs[0].base, rs[0].pages + rs[1].pages, false)] + rs[2..])
    else [rs[0]] + Merged(rs[1..])
  }

  /** Joining free neighbours keeps the tiling and the ranges in use, and leaves no two free neighbours. */
  lemma {:induction false} MergedIs(rs: seq<Range>, start: nat, end: nat)
    requires Tiles(rs, start, end)
    ensures Tiles(Merged(rs), start, end) && Joined(Merged(rs)) && InUse(Merged(rs)) == InUse(rs)
    ensures rs != [] ==> Merged(rs) != [] && Merged(rs)[0].used == rs[0].used
    decreases |rs|
  {
    if |rs| >= 2 {
      if Mergeable(rs[0], rs[1]) {
        var t := [Range(rs[0].base, rs[0].pages + rs[1].pages, false)] + rs[2..];
        assert t[1..] == rs[2..] == rs[1..][1..];
        MergedIs(t, start, end);
      } else {
        MergedIs(rs[1..], End(rs[0]), end);
        assert ([rs[0]] + Merged(rs[1..]))[1..] == Merged(rs[1..]);
      }
    }
  }

  // ---- freeing ----

  function Released(rs: seq<Range>, i: nat): seq<Range>
    requires i < |rs|
  {
    rs[..i] + [rs[i].(used := false)] + rs[i + 1..]
  }

  /** Freeing a range keeps the tiling and takes just that range off the ranges in use. */
  lemma ReleasedIs(rs: seq<Range>, i: nat, start: nat, end: nat)
    requires Sound(rs, start, end) && i < |rs| && rs[i].used
    ensures Sound(Merged(Released(rs, i)), start, end)
    ensures InUse(rs) == InUse(rs[..i]) + [rs[i]] + InUse(rs[i + 1..])
    ensures InUse(Merged(Released(rs, i))) == InUse(rs[..i]) + InUse(rs[i + 1..])
  {
    Around(rs, i);
    ReleasedParts(rs[..i], rs[i], rs[i + 1..], start, end);
    MergedIs(Released(rs, i), start, end);
  }

  lemma ReleasedParts(a: seq<Range>, r: Range, b: seq<Range>, start: nat, end: nat)
    requires Tiles(a + [r] + b, start, end) && r.used
    ensures Tiles(a + [r.(used := false)] + b, start, end)
    ensures InUse(a + [r] + b) == InUse(a) + [r] + InUse(b) && InUse(a + [r.(used := false)] + b) == InUse(a) + InUse(b)
  {
    var f := r.(used := false);
    assert (a + [r] + b)[|a|] == r;
    Within(a + [r] + b, start, end, |a|);
    OneRange(r, r.base, End(r));
    OneRange(f, r.base, End(r));
    TilesReplaced(a, [r], b, [f], start, end, r.base, End(r));
    InUseThree(a, [r], b);
    InUseThree(a, [f], b);
  }

  // ---- using a given range ----

  function AlignDown(x: nat): nat {
    x - x % PAGE
  }

  /** Whether a free range holds some pages from an address on, with room behind them, as machine words. */
  predicate Holds(r: Range, at: nat, pages: nat) {
    !r.used && r.base <= at && (at + pages * PAGE % WORD) % WORD < (r.base + r.pages * PAGE) % WORD
  }

  /** What is made of that range, as machine words. */
  function Cut(r: Range, at: nat, pages: nat): seq<Range> {
    if at == r.base then
      [r.(used := true), Range((r.base + pages * PAGE) % WORD, (r.pages - pages) % WORD, false)]
    else
      var before := (at - r.base) % WORD / PAGE;
      [Range(r.base, before, false), Range(at, pages, true),
          Range((at + pages * PAGE) % WORD, (r.pages - (before + pages)) % WORD, false)]
  }

  function Used(rs: seq<Range>, i: nat, at: nat, pages: nat): seq<Range>
    requires i < |rs|
  {
    rs[..i] + Cut(rs[i], at, pages) + rs[i + 1..]
  }

  /** Every base is a multiple of the page size. */
  predicate Aligned(rs: seq<Range>) {
    forall r :: r in rs ==> r.base % PAGE == 0
  }

  lemma {:induction false} TilesAligned(rs: seq<Range>, start: nat, end: nat)
    requires Tiles(rs, start, end) && start % PAGE == 0
    ensures Aligned(rs)
  {
    if rs != [] {
      TilesAligned(rs[1..], End(rs[0]), end);
    }
  }

  lemma CutIs(r: Range, at: nat, pages: nat)
    requires Holds(r, at, pages) && End(r) < WORD && r.base % PAGE == 0 && at % PAGE == 0
    requires r.base < at && 0 < pages && at + pages * PAGE < WORD
    ensures var c := Cut(r, at, pages);
            Tiles(c, r.base, End(r)) && Joined(c) && !c[0].used && !c[2].used && InUse(c) == [Range(at, pages, true)]
  {
    var c := Cut(r, at, pages);
    CutWords(r, at, pages);
    assert c == [c[0]] + [c[1], c[2]];
    OneRange(c[0], r.base, at);
    TwoRanges(c[1], c[2], at, End(r));
    TilesConcat([c[0]], [c[1], c[2]], r.base, End(r));
    JoinedConcat([c[0]], [c[1], c[2]]);
    InUseConcat([c[0]], [c[1], c[2]]);
  }

  lemma CutWords(r: Range, at: nat, pages: nat)
    requires Holds(r, at, pages) && End(r) < WORD && r.base % PAGE == 0 && at % PAGE == 0
    requires r.base < at && 0 < pages && at + pages * PAGE < WORD
    ensures var before := (at - r.base) / PAGE;
            && 0 < before && r.base + before * PAGE == at && before + pages < r.pages
            && Cut(r, at, pages) == [Range(r.base, before, false),
                  Range(at, pages, true), Range(at + pages * PAGE, r.pages - (before + pages), false)]
  {
    var before := (at - r.base) / PAGE;
    Multiple(r.base, at);
    SmallWord(pages * PAGE);
    SmallWord(at + pages * PAGE);
    SmallWord(End(r));
    SmallWord(at - r.base);
    assert before + pages < r.pages;
    SmallWord(r.pages - (before + pages));
  }

  lemma Multiple(x: nat, y: nat)
    requires x % PAGE == 0 && y % PAGE == 0 && x < y
    ensures x + (y - x) / PAGE * PAGE == y && 0 < (y - x) / PAGE
  {
  }

  lemma SmallWord(x: nat)
    requires x < WORD
    ensures x % WORD == x
  {
  }

  lemma WrapSum(x: nat, y: nat)
    ensures (x + y % WORD) % WORD == (x + y) % WORD
  {
    var z := x + y % WORD;
    assert x + y == z + WORD * (y / WORD);
    WrapMultiple(z, y / WORD);
  }

  lemma {:induction false} WrapMultiple(z: nat, k: nat)
    ensures (z + WORD * k) % WORD == z % WORD
  {
    if k > 0 {
      WrapMultiple(z, k - 1);
      assert z + WORD * k == z + WORD * (k - 1) + WORD;
    }
  }

  /** Using given pages keeps the tiling and adds just these, exactly when they are some, do not begin the free range
      they are in, and do not wrap around. */
  lemma UsedSoundIff(rs: seq<Range>, i: nat, at: nat, pages: nat, start: nat, end: nat)
    requires && Sound(rs, start, end) && start % PAGE == 0 && i < |rs| && at < WORD && at % PAGE == 0
             && Holds(rs[i], at, pages)
    ensures Sound(Used(rs, i, at, pages), start, end) <==> 0 < pages && rs[i].base < at && at + pages * PAGE < WORD
  {
    Within(rs, start, end, i);
    TilesAligned(rs, start, end);
    if 0 < pages && rs[i].base < at && at + pages * PAGE < WORD {
      UsedIs(rs, i, at, pages, start, end);
    } else if at == rs[i].base {
      UsedOverlaps(rs, i, pages, start, end);
    } else {
      UsedOutside(rs, i, at, pages, start, end);
    }
  }

  /** Taking pages from the start of a free range leaves its size as it was, so that it runs over the rest. */
  lemma UsedOverlaps(rs: seq<Range>, i: nat, pages: nat, start: nat, end: nat)
    requires Sound(rs, start, end) && i < |rs| && Holds(rs[i], rs[i].base, pages) && End(rs[i]) < WORD
    ensures !Sound(Used(rs, i, rs[i].base, pages), start, end)
  {
    var t := Used(rs, i, rs[i].base, pages);
    WrapSum(rs[i].base, pages * PAGE);
    SmallWord(End(rs[i]));
    assert t[i] == rs[i].(used := true) && t[i + 1] == Cut(rs[i], rs[i].base, pages)[1];
    if Sound(t, start, end) {
      Apart(t, start, end, i, i + 1);
      assert false;
    }
  }

  lemma UsedOutside(rs: seq<Range>, i: nat, at: nat, pages: nat, start: nat, end: nat)
    requires Sound(rs, start, end) && i < |rs| && at != rs[i].base && (pages == 0 || WORD <= at + pages * PAGE)
    requires Holds(rs[i], at, pages)
    ensures !Sound(Used(rs, i, at, pages), start, end)
  {
    var t := Used(rs, i, at, pages);
    assert t[i + 1] == Range(at, pages, true);
    if Sound(t, start, end) {
      Within(t, start, end, i + 1);
      assert false;
    }
  }

  lemma UsedIs(rs: seq<Range>, i: nat, at: nat, pages: nat, start: nat, end: nat)
    requires Sound(rs, start, end) && start % PAGE == 0 && i < |rs| && at % PAGE == 0 && Holds(rs[i], at, pages)
    requires 0 < pages && rs[i].base < at && at + pages * PAGE < WORD
    ensures Sound(Used(rs, i, at, pages), start, end)
    ensures InUse(rs) == InUse(rs[..i]) + InUse(rs[i + 1..])
    ensures InUse(Used(rs, i, at, pages)) == InUse(rs[..i]) + [Range(at, pages, true)] + InUse(rs[i + 1..])
  {
    Within(rs, start, end, i);
    TilesAligned(rs, start, end);
    Around(rs, i);
    CutIs(rs[i], at, pages);
    Replaced(rs[..i], rs[i], rs[i + 1..], Cut(rs[i], at, pages), start, end);
  }
}
