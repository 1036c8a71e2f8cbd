/** A directory as the list of the names in it. */
module FatCatalog {
  import opened FatBytes
  import opened DirTable
  import opened FatLfn
  import opened FatSfn
  import opened FatSlots

  // How get_fileinfo spells the name of an object.

  /** A character of the code page: one byte or two. */
  type Code = c: int | 0 <= c < 0x1_0000

  const LFN_BUF := 255
  const QUESTION := 0x3F

  predicate IsSurrogate(c: nat) {
    0xD800 <= c <= 0xDFFF
  }

  /** The code page keeps ASCII as it is. */
  ghost predicate KeepsAscii(oem: nat -> Code) {
    forall c: nat :: 0 < c < 0x80 ==> oem(c) == c
  }

  /** The text of the buffer from `si` on put behind `out` in the code page; nothing if a character has no code, a
      surrogate no partner, or the text no room. */
  function Decode(buf: seq<nat>, si: nat, hs: nat, out: seq<nat>, oem: nat -> Code): seq<nat>
    decreases |buf| - si
  {
    if si >= |buf| || buf[si] == 0 then if hs != 0 then [] else out
    else if hs == 0 && IsSurrogate(buf[si]) then Decode(buf, si + 1, buf[si], out, oem)
    else
      var w := oem(hs * 0x1_0000 + buf[si]);
      if w >= 0x100 then if |out| + 2 > LFN_BUF then [] else Decode(buf, si + 1, 0, out + [w / 0x100, w % 0x100], oem)
      else if w == 0 || |out| + 1 > LFN_BUF then []
      else Decode(buf, si + 1, 0, out + [w], oem)
  }

  predicate BodySmall(e: Slot) {
    e[DIR_NT_RES] / NS_BODY % 2 == 1
  }

  predicate ExtSmall(e: Slot) {
    e[DIR_NT_RES] / NS_EXT % 2 == 1
  }

  /** The name of the object with a short-name entry: its long name if it has a valid one, else its short name with
      case. */
  function Spelling(e: Slot, long: bool, buf: seq<nat>, oem: nat -> Code): seq<nat> {
    var full := if long then Decode(buf, 0, 0, [], oem) else [];
    var alt := Dotted(e[..11]);
    if full != [] then full else if alt == [] then [QUESTION] else Cased(alt, BodySmall(e), ExtSmall(e))
  }

  /** A collected name is decoded as it is. */
  lemma {:induction false} DecodedBack(buf: seq<nat>, n: Name, si: nat, oem: nat -> Code)
    requires Collected(buf, n, 0) && AllLegal(n) && |n| <= LFN_BUF && si <= |n| && KeepsAscii(oem)
    ensures Decode(buf, si, 0, n[..si], oem) == n
    decreases |n| - si
  {
    if si < |n| {
      assert Legal(n[si]) && oem(n[si]) == n[si];
      assert n[..si] + [n[si]] == n[..si + 1];
      DecodedBack(buf, n, si + 1, oem);
    } else {
      assert n[..si] == n;
    }
  }

  // The entries of a directory as names.

  /** A name with its short form and the short name it is stored with, which is another one if the short form lost
      something. */
  datatype Item = Item(name: Name, short: Short, fn: Sfn)

  predicate OpenItem(o: Item) {
    && Trimmed(o.name) && |o.name| <= MAX_LFN && ShortOf(o.name, o.short) && Usable(o.fn)
    && (!o.short.loss ==> o.fn == o.short.fn)
  }

  /** OpenItem and OpenBlock, reached through a countdown so that a proof looks into them only where it calls ItemIs
      and BlockIs. */
  predicate ItemAfter(o: Item, countdown: nat) {
    if countdown > 0 then ItemAfter(o, countdown - 1) else OpenItem(o)
  }

  predicate IsItem(o: Item) {
    ItemAfter(o, |o.name|)
  }

  lemma {:induction false} ItemAfterIs(o: Item, countdown: nat)
    ensures ItemAfter(o, countdown) <==> OpenItem(o)
  {
    if countdown > 0 {
      ItemAfterIs(o, countdown - 1);
    }
  }

  lemma ItemIs(o: Item)
    ensures IsItem(o) <==> OpenItem(o)
  {
    ItemAfterIs(o, |o.name|);
  }

  /** The entries an item takes. */
  function Length(o: Item): nat {
    Parts(o.name, o.short.lfn) + 1
  }

  predicate OpenBlock(d: seq<Slot>, k: nat, o: Item) {
    IsBlock(d, k, o.name, o.short, o.fn)
  }

  predicate BlockAfter(d: seq<Slot>, k: nat, o: Item, countdown: nat) {
    if countdown > 0 then BlockAfter(d, k, o, countdown - 1) else OpenBlock(d, k, o)
  }

  /** Entries from `k` on hold an item. */
  predicate HasBlock(d: seq<Slot>, k: nat, o: Item) {
    BlockAfter(d, k, o, |o.name|)
  }

  lemma {:induction false} BlockAfterIs(d: seq<Slot>, k: nat, o: Item, countdown: nat)
    ensures BlockAfter(d, k, o, countdown) <==> OpenBlock(d, k, o)
  {
    if countdown > 0 {
      BlockAfterIs(d, k, o, countdown - 1);
    }
  }

  lemma BlockIs(d: seq<Slot>, k: nat, o: Item)
    ensures HasBlock(d, k, o) <==> OpenBlock(d, k, o)
  {
    BlockAfterIs(d, k, o, |o.name|);
  }

  /** From entry `p` on the directory holds some items and nothing else: their blocks with void entries between them,
      and entries never used behind them. */
  predicate IsCatalog(d: seq<Slot>, p: nat, items: seq<Item>)
    decreases |d| - p
  {
    if p >= |d| then items == []
    else if d[p][0] == 0 then items == [] && forall i :: p <= i < |d| ==> d[i][0] == 0
    else if IsVoid(d[p]) then IsCatalog(d, p + 1, items)
    else items != [] && IsItem(items[0]) && HasBlock(d, p, items[0]) && IsCatalog(d, p + Length(items[0]), items[1..])
  }

  /** The name of an item is what reading its block and spelling it gives. */
  lemma ItemReadsBack(d: seq<Slot>, k: nat, o: Item, s: Scan, oem: nat -> Code)
    requires IsItem(o) && HasBlock(d, k, o) && |s.buf| == MAX_LFN + 1 && s.ord == NO_ORDER && KeepsAscii(oem)
    ensures var q := ReadFrom(d, k, s);
            q.Object? && q.k + 1 == k + Length(o) && q.k < |d| && Spelling(d[q.k], q.long, q.buf, oem) == o.name
  {
    ItemIs(o);
    BlockIs(d, k, o);
    ReadBlock(d, k, o.name, o.short, o.fn, s);
    var q := ReadFrom(d, k, s);
    if o.short.lfn {
      DecodedBack(q.buf, o.name, 0, oem);
      assert o.name[..0] == [];
    } else {
      ShortSpelled(d[q.k], o, q.buf, oem);
    }
  }

  /** An item without long-name entries is spelled from its short-name entry. */
  lemma ShortSpelled(e: Slot, o: Item, buf: seq<nat>, oem: nat -> Code)
    requires IsItem(o) && !o.short.lfn && IsSfnEntry(e, o.fn, o.short.body, o.short.ext)
    ensures Spelling(e, false, buf, oem) == o.name
  {
    ItemIs(o);
    ShortOfIs(o.name, o.short);
    assert BodySmall(e) == o.short.body && ExtSmall(e) == o.short.ext;
    SpelledBack(o.name, o.short);
  }

  /** The buffer keeps its size while entries are read. */
  lemma {:induction false} BufferKept(d: seq<Slot>, k: nat, s: Scan)
    ensures ReadFrom(d, k, s).Object? ==> |ReadFrom(d, k, s).buf| == |s.buf| && k <= ReadFrom(d, k, s).k < |d|
    decreases |d| - k
  {
    if k < |d| && d[k][0] != 0 {
      if IsVoid(d[k]) {
        BufferKept(d, k + 1, s.(ord := NO_ORDER));
      } else if Attr(d[k]) == AM_LFN {
        BufferKept(d, k + 1, Seen(s, d[k]));
      }
    }
  }

  /** Reading on in a catalogued directory gives the next item, and nothing behind the last one. */
  lemma {:induction false} ReadNext(d: seq<Slot>, p: nat, items: seq<Item>, s: Scan, oem: nat -> Code)
    requires IsCatalog(d, p, items) && |s.buf| == MAX_LFN + 1 && s.ord == NO_ORDER && KeepsAscii(oem)
    ensures items == [] <==> ReadFrom(d, p, s).NoMore?
    ensures (items != [] ==>
      var q := ReadFrom(d, p, s);
      && q.Object? && p <= q.k < |d| && |q.buf| == |s.buf| && Spelling(d[q.k], q.long, q.buf, oem) == items[0].name
      && IsCatalog(d, q.k + 1, items[1..]))
    decreases |d| - p
  {
    BufferKept(d, p, s);
    if p < |d| && d[p][0] != 0 {
      if IsVoid(d[p]) {
        ReadNext(d, p + 1, items, s, oem);
      } else {
        ItemReadsBack(d, p, items[0], s, oem);
      }
    }
  }

  // Putting one more item in.

  predicate IsFree(e: Slot) {
    e[0] == DELETED || e[0] == 0
  }

  /** The entries before and after growing: the same and then ones never used. */
  predicate Extended(was: seq<Slot>, now: seq<Slot>) {
    was <= now && forall i :: |was| <= i < |now| ==> now[i][0] == 0
  }

  /** A run of free entries that begins at `a` and goes up to `k` at least. */
  predicate Roomy(d: seq<Slot>, a: nat, k: nat) {
    a <= k < |d| && (forall i :: a <= i <= k ==> IsFree(d[i])) && (a > 0 ==> !IsFree(d[a - 1]))
  }

  /** Only entries from `a` up to `k` differ. */
  predicate SameOutside(was: seq<Slot>, now: seq<Slot>, a: nat, k: nat) {
    |was| == |now| && forall i :: 0 <= i < |was| && !(a <= i <= k) ==> now[i] == was[i]
  }

  /** Entries that are the same hold the same items. */
  lemma {:induction false} RunSame(d: seq<Slot>, e: seq<Slot>, k: nat, n: Name, ord: nat, sum: byte)
    requires && LfnRun(d, k, n, ord, sum) && k + ord <= |d| && k + ord <= |e|
             && forall i :: k <= i < k + ord ==> e[i] == d[i]
    ensures LfnRun(e, k, n, ord, sum)
    decreases ord
  {
    if ord > 0 {
      RunSame(d, e, k + 1, n, ord - 1, sum);
    }
  }

  lemma BlockSame(d: seq<Slot>, e: seq<Slot>, k: nat, o: Item)
    requires HasBlock(d, k, o) && |d| <= |e| && forall i :: k <= i < k + Length(o) && i < |d| ==> e[i] == d[i]
    ensures HasBlock(e, k, o)
  {
    BlockIs(d, k, o);
    BlockIs(e, k, o);
    RunSame(d, e, k, o.name, Parts(o.name, o.short.lfn), SumFrom(o.fn, 0));
  }

  /** No entry of an item is free or void. */
  lemma {:induction false} RunInUse(d: seq<Slot>, k: nat, n: Name, ord: nat, sum: byte, i: nat)
    requires LfnRun(d, k, n, ord, sum) && n != [] && |n| <= MAX_LFN && ord <= LastPart(n) && k <= i < k + ord
    ensures i < |d| && !IsFree(d[i]) && !IsVoid(d[i])
    decreases ord
  {
    if i == k {
      PartBounds(n, ord);
    } else {
      RunInUse(d, k + 1, n, ord - 1, sum, i);
    }
  }

  lemma BlockInUse(d: seq<Slot>, k: nat, o: Item, i: nat)
    requires HasBlock(d, k, o) && IsItem(o) && k <= i < k + Length(o)
    ensures i < |d| && !IsFree(d[i]) && !IsVoid(d[i])
  {
    ItemIs(o);
    BlockIs(d, k, o);
    if i + 1 < k + Length(o) {
      RunInUse(d, k, o.name, Parts(o.name, o.short.lfn), SumFrom(o.fn, 0), i);
    } else {
      assert d[i][..11][0] == d[i][0];
    }
  }

  /** Growing the table leaves the items in it. */
  lemma {:induction false} CatalogExtended(was: seq<Slot>, now: seq<Slot>, p: nat, items: seq<Item>)
    requires IsCatalog(was, p, items) && Extended(was, now)
    ensures IsCatalog(now, p, items)
    decreases |was| - p
  {
    if p < |was| && was[p][0] != 0 {
      if IsVoid(was[p]) {
        CatalogExtended(was, now, p + 1, items);
      } else {
        BlockSame(was, now, p, items[0]);
        CatalogExtended(was, now, p + Length(items[0]), items[1..]);
        CatalogCons(now, p, items[0], items[1..]);
        assert [items[0]] + items[1..] == items;
      }
    }
  }

  /** Changes before an entry leave the items from it on. */
  lemma {:induction false} CatalogBehind(d: seq<Slot>, e: seq<Slot>, p: nat, items: seq<Item>)
    requires IsCatalog(d, p, items) && |e| == |d| && forall i :: p <= i < |d| ==> e[i] == d[i]
    ensures IsCatalog(e, p, items)
    decreases |d| - p
  {
    if p < |d| && d[p][0] != 0 {
      if IsVoid(d[p]) {
        CatalogBehind(d, e, p + 1, items);
      } else {
        BlockSame(d, e, p, items[0]);
        CatalogBehind(d, e, p + Length(items[0]), items[1..]);
        CatalogCons(e, p, items[0], items[1..]);
        assert [items[0]] + items[1..] == items;
      }
    }
  }

  /** Free entries hold no items. */
  lemma {:induction false} CatalogPast(d: seq<Slot>, p: nat, k: nat, items: seq<Item>)
    requires IsCatalog(d, p, items) && p <= k <= |d| && forall i :: p <= i < k ==> IsFree(d[i])
    ensures IsCatalog(d, k, items)
    decreases k - p
  {
    if p < k {
      assert IsFree(d[p]);
      if d[p][0] == 0 {
        assert k < |d| ==> d[k][0] == 0;
      } else {
        CatalogPast(d, p + 1, k, items);
      }
    }
  }

  /** One item more in a list. */
  predicate Inserted(was: seq<Item>, now: seq<Item>, o: Item) {
    exists i :: 0 <= i <= |was| && now == was[..i] + [o] + was[i..]
  }

  /** A block put into the first run of free entries that is long enough: the directory holds that item besides those
      it held, in the same order. */
  lemma {:induction false} CatalogPlaced(was: seq<Slot>, now: seq<Slot>, p: nat, a: nat, items: seq<Item>, o: Item)
      returns (more: seq<Item>)
    requires IsCatalog(was, p, items) && p <= a && IsItem(o) && HasBlock(now, a, o)
    requires Roomy(was, a, a + Length(o) - 1) && SameOutside(was, now, a, a + Length(o) - 1)
    ensures IsCatalog(now, p, more) && Inserted(items, more, o)
    decreases |was| - p, 1
  {
    if p == a {
      more := PlacedHere(was, now, a, items, o);
    } else if was[p][0] == 0 {
      assert false;
      more := items;
    } else if IsVoid(was[p]) {
      more := CatalogPlaced(was, now, p + 1, a, items, o);
    } else {
      more := PlacedBehind(was, now, p, a, items, o);
    }
  }

  lemma PlacedHere(was: seq<Slot>, now: seq<Slot>, a: nat, items: seq<Item>, o: Item) returns (more: seq<Item>)
    requires IsCatalog(was, a, items) && IsItem(o) && HasBlock(now, a, o)
    requires Roomy(was, a, a + Length(o) - 1) && SameOutside(was, now, a, a + Length(o) - 1)
    ensures IsCatalog(now, a, more) && Inserted(items, more, o)
  {
    more := [o] + items;
    CatalogPast(was, a, a + Length(o), items);
    CatalogBehind(was, now, a + Length(o), items);
    CatalogCons(now, a, o, items);
    assert items[..0] + [o] + items[0..] == more;
  }

  lemma PlacedBehind(was: seq<Slot>, now: seq<Slot>, p: nat, a: nat, items: seq<Item>, o: Item)
      returns (more: seq<Item>)
    requires && p < a && items != [] && IsItem(items[0]) && HasBlock(was, p, items[0])
             && IsCatalog(was, p + Length(items[0]), items[1..])
    requires IsItem(o) && HasBlock(now, a, o)
    requires Roomy(was, a, a + Length(o) - 1) && SameOutside(was, now, a, a + Length(o) - 1)
    ensures IsCatalog(now, p, more) && Inserted(items, more, o)
    decreases |was| - p, 0
  {
    BlockBefore(was, now, p, a, a + Length(o) - 1, items[0]);
    var rest := CatalogPlaced(was, now, p + Length(items[0]), a, items[1..], o);
    more := [items[0]] + rest;
    CatalogCons(now, p, items[0], rest);
    InsertedCons(items, rest, o);
  }

  /** An item before the run of free entries ends before it and stays. */
  lemma BlockBefore(was: seq<Slot>, now: seq<Slot>, p: nat, a: nat, k: nat, x: Item)
    requires p < a && IsItem(x) && HasBlock(was, p, x) && Roomy(was, a, k) && SameOutside(was, now, a, k)
    ensures p + Length(x) <= a && HasBlock(now, p, x)
  {
    if a < p + Length(x) {
      BlockInUse(was, p, x, a);
      assert false;
    }
    BlockSame(was, now, p, x);
  }

  lemma CatalogCons(d: seq<Slot>, p: nat, x: Item, rest: seq<Item>)
    requires IsItem(x) && HasBlock(d, p, x) && IsCatalog(d, p + Length(x), rest)
    ensures IsCatalog(d, p, [x] + rest)
  {
    BlockInUse(d, p, x, p);
    assert ([x] + rest)[1..] == rest;
  }

  lemma InsertedCons(items: seq<Item>, rest: seq<Item>, o: Item)
    requires items != [] && Inserted(items[1..], rest, o)
    ensures Inserted(items, [items[0]] + rest, o)
  {
    var i :| 0 <= i <= |items[1..]| && rest == items[1..][..i] + [o] + items[1..][i..];
    var m := items[1..];
    assert items[..i + 1] == [items[0]] + m[..i] && items[i + 1..] == m[i..];
    assert items[..i + 1] + [o] + items[i + 1..] == [items[0]] + (m[..i] + [o] + m[i..]);
  }

  /** The table may have grown, and entries from `a` up to `k` begin a run of free ones. */
  predicate Reserved(was: seq<Slot>, grown: seq<Slot>, a: nat, k: nat) {
    ReservedAfter(was, grown, a, k, |was|)
  }

  predicate OpenReserved(was: seq<Slot>, grown: seq<Slot>, a: nat, k: nat) {
    Extended(was, grown) && Roomy(grown, a, k)
  }

  predicate ReservedAfter(was: seq<Slot>, grown: seq<Slot>, a: nat, k: nat, countdown: nat) {
    if countdown > 0 then ReservedAfter(was, grown, a, k, countdown - 1) else OpenReserved(was, grown, a, k)
  }

  lemma {:induction false} ReservedAfterIs(was: seq<Slot>, grown: seq<Slot>, a: nat, k: nat, countdown: nat)
    ensures ReservedAfter(was, grown, a, k, countdown) <==> OpenReserved(was, grown, a, k)
  {
    if countdown > 0 {
      ReservedAfterIs(was, grown, a, k, countdown - 1);
    }
  }

  lemma ReservedIs(was: seq<Slot>, grown: seq<Slot>, a: nat, k: nat)
    ensures Reserved(was, grown, a, k) <==> OpenReserved(was, grown, a, k)
  {
    ReservedAfterIs(was, grown, a, k, |was|);
  }

  /** What registering an item does to the entries: its block is put into a run of free entries. */
  predicate Registered(was: seq<Slot>, grown: seq<Slot>, now: seq<Slot>, a: nat, o: Item) {
    RegisteredAfter(was, grown, now, a, o, |was|)
  }

  predicate OpenRegistered(was: seq<Slot>, grown: seq<Slot>, now: seq<Slot>, a: nat, o: Item) {
    && IsItem(o) && HasBlock(now, a, o) && Reserved(was, grown, a, a + Length(o) - 1)
    && SameOutside(grown, now, a, a + Length(o) - 1)
  }

  predicate RegisteredAfter(was: seq<Slot>, grown: seq<Slot>, now: seq<Slot>, a: nat, o: Item, countdown: nat) {
    if countdown > 0 then RegisteredAfter(was, grown, now, a, o, countdown - 1)
    else OpenRegistered(was, grown, now, a, o)
  }

  lemma {:induction false} RegisteredAfterIs(was: seq<Slot>, grown: seq<Slot>, now: seq<Slot>, a: nat, o: Item,
      countdown: nat)
    ensures RegisteredAfter(was, grown, now, a, o, countdown) <==> OpenRegistered(was, grown, now, a, o)
  {
    if countdown > 0 {
      RegisteredAfterIs(was, grown, now, a, o, countdown - 1);
    }
  }

  lemma RegisteredIs(was: seq<Slot>, grown: seq<Slot>, now: seq<Slot>, a: nat, o: Item)
    ensures Registered(was, grown, now, a, o) <==> OpenRegistered(was, grown, now, a, o)
  {
    RegisteredAfterIs(was, grown, now, a, o, |was|);
  }

  /** A directory holds the item registered besides those it held, in the same order. */
  lemma CatalogRegistered(was: seq<Slot>, grown: seq<Slot>, now: seq<Slot>, a: nat, items: seq<Item>, o: Item)
      returns (more: seq<Item>)
    requires IsCatalog(was, 0, items) && Registered(was, grown, now, a, o)
    ensures IsCatalog(now, 0, more) && Inserted(items, more, o)
  {
    RegisteredIs(was, grown, now, a, o);
    ReservedIs(was, grown, a, a + Length(o) - 1);
    CatalogExtended(was, grown, 0, items);
    more := CatalogPlaced(grown, now, 0, a, items, o);
  }

  /** A directory never used holds nothing. */
  lemma EmptyCatalog(d: seq<Slot>)
    requires forall i :: 0 <= i < |d| ==> d[i][0] == 0
    ensures IsCatalog(d, 0, [])
  {
  }

  // Short names in use.

  /** Whether an entry before the end of the directory has a short name. */
  predicate FindFrom(d: seq<Slot>, k: nat, f: Sfn)
    decreases |d| - k
  {
    k < |d| && d[k][0] != 0 && ((IsNamed(d[k]) && d[k][..11] == f) || FindFrom(d, k + 1, f))
  }

  /** A short-name entry in use that is no volume label. */
  predicate IsNamed(e: Slot) {
    e[0] != DELETED && Attr(e) / AM_VOL % 2 == 0
  }
}
