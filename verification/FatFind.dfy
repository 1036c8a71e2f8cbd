/** Looking a name up in a directory: cmp_lfn and dir_find. */
module FatFind {
  import opened FatBytes
  import opened FatVolume
  import opened DirTable
  import opened FatDir
  import opened FatLfn
  import opened FatSfn
  import opened FatSlots
  import opened FatCatalog
  import opened FatNames
  import opened FatReaddir

  // Names that differ in case only.

  /** A mapping to upper case takes nothing else to the end of a name. */
  ghost predicate KeepsEnd(up: nat -> nat) {
    forall c: nat :: up(c) == 0 <==> c == 0
  }

  predicate SameName(m: Name, n: Name, up: nat -> nat) {
    |m| == |n| && forall i :: 0 <= i < |m| ==> up(m[i]) == up(n[i])
  }

  /** The characters of an entry from `s` on are those of the buffer from `i` on, but for case, until the name has
      ended. */
  function CompareFrom(buf: seq<nat>, e: Slot, i: int, ended: bool, s: nat, up: nat -> nat): (r: (bool, int, bool))
    requires s <= PART
    decreases PART - s
  {
    if s == PART then (true, i, ended)
    else if !ended then
      if 0 <= i < |buf| && up(CharAt(e, s)) == up(buf[i]) then CompareFrom(buf, e, i + 1, CharAt(e, s) == 0, s + 1, up)
      else (false, i, ended)
    else if CharAt(e, s) == FILLER then CompareFrom(buf, e, i, true, s + 1, up)
    else (false, i, ended)
  }

  /** The entry holds the part of the name in the buffer that its order says. */
  predicate Compare(buf: seq<nat>, e: Slot, up: nat -> nat) {
    LdWord(e, LDIR_FST_CLUS_LO) == 0 &&
    var r := CompareFrom(buf, e, (e[LDIR_ORD] % 64 - 1) * PART, false, 0, up);
    r.0 && (IsLast(e) && !r.2 ==> 0 <= r.1 < |buf| && buf[r.1] == 0)
  }

  /** cmp_lfn. */
  method CmpLfn(buf: seq<nat>, e: Slot, up: nat -> nat) returns (same: bool)
    requires |buf| == MAX_LFN + 1
    ensures same == Compare(buf, e, up)
  {
    if LdWord(e, LDIR_FST_CLUS_LO) != 0 {
      return false;
    }
    var i, s, ended := (e[LDIR_ORD] % 64 - 1) * PART, 0, false;
    while s < PART
      invariant s <= PART
      invariant CompareFrom(buf, e, (e[LDIR_ORD] % 64 - 1) * PART, false, 0, up) == CompareFrom(buf, e, i, ended, s, up)
    {
      var uc := CharAt(e, s);
      if !ended {
        if i < 0 || i >= MAX_LFN + 1 || up(uc) != up(buf[i]) {
          return false;
        }
        i, ended := i + 1, uc == 0;
      } else if uc != FILLER {
        return false;
      }
      s := s + 1;
    }
    same := !(IsLast(e) && !ended && (i < 0 || i >= MAX_LFN + 1 || buf[i] != 0));
  }

  predicate SameChar(buf: seq<nat>, m: Name, k: nat, up: nat -> nat) {
    k < |buf| && up(Stored(m, k)) == up(buf[k])
  }

  /** The characters of name `m` from `i` up to `end`, with the end of the name if that is among them, are those of
      the buffer but for case. */
  predicate SameUpTo(buf: seq<nat>, m: Name, i: nat, end: nat, up: nat -> nat)
    decreases end - i
  {
    i >= end || i > |m| || (SameChar(buf, m, i, up) && SameUpTo(buf, m, i + 1, end, up))
  }

  lemma {:induction false} ComparePart(buf: seq<nat>, e: Slot, m: Name, ord: nat, i: nat, s: nat, up: nat -> nat)
    requires 0 < ord && HoldsPart(e, m, ord) && s <= PART && i == PART * (ord - 1) + s <= |m|
    ensures var r := CompareFrom(buf, e, i, false, s, up);
            && r.0 == SameUpTo(buf, m, i, PART * ord, up)
            && (r.0 ==> r.2 == (|m| < PART * ord) && (!r.2 ==> r.1 == PART * ord))
    decreases PART - s
  {
    if s < PART {
      assert CharAt(e, s) == Stored(m, i);
      if i < |buf| && up(CharAt(e, s)) == up(buf[i]) {
        if i < |m| {
          ComparePart(buf, e, m, ord, i + 1, s + 1, up);
        } else {
          CompareFiller(buf, e, m, ord, i + 1, s + 1, up);
        }
      }
    }
  }

  lemma {:induction false} CompareFiller(buf: seq<nat>, e: Slot, m: Name, ord: nat, i: nat, s: nat, up: nat -> nat)
    requires 0 < ord && HoldsPart(e, m, ord) && s <= PART && |m| < PART * (ord - 1) + s
    ensures CompareFrom(buf, e, i, true, s, up) == (true, i, true)
    decreases PART - s
  {
    if s < PART {
      assert CharAt(e, s) == Stored(m, PART * (ord - 1) + s);
      CompareFiller(buf, e, m, ord, i, s + 1, up);
    }
  }

  /** Part `ord` of a name compared: it is that of the buffer, and with the last part the names are of one length. The
      countdown only keeps proofs from looking inside where PartSameIs is not called. */
  predicate PartSame(buf: seq<nat>, m: Name, ord: nat, up: nat -> nat) {
    PartSameAfter(buf, m, ord, up, ord)
  }

  predicate OpenPartSame(buf: seq<nat>, m: Name, ord: nat, up: nat -> nat) {
    && ord > 0 && SameUpTo(buf, m, PART * (ord - 1), PART * ord, up)
    && (|m| == PART * ord ==> |m| < |buf| && buf[|m|] == 0)
  }

  predicate PartSameAfter(buf: seq<nat>, m: Name, ord: nat, up: nat -> nat, countdown: nat) {
    if countdown > 0 then PartSameAfter(buf, m, ord, up, countdown - 1) else OpenPartSame(buf, m, ord, up)
  }

  lemma {:induction false} PartSameAfterIs(buf: seq<nat>, m: Name, ord: nat, up: nat -> nat, countdown: nat)
    ensures PartSameAfter(buf, m, ord, up, countdown) <==> OpenPartSame(buf, m, ord, up)
  {
    if countdown > 0 {
      PartSameAfterIs(buf, m, ord, up, countdown - 1);
    }
  }

  lemma PartSameIs(buf: seq<nat>, m: Name, ord: nat, up: nat -> nat)
    ensures PartSame(buf, m, ord, up) <==> OpenPartSame(buf, m, ord, up)
  {
    PartSameAfterIs(buf, m, ord, up, ord);
  }

  lemma OrderOf(e: Slot, m: Name, ord: nat, sum: byte)
    requires m != [] && |m| <= MAX_LFN && 0 < ord <= LastPart(m) && IsLfnEntry(e, m, ord, sum)
    ensures PART * (ord - 1) < |m| && (ord == LastPart(m) <==> |m| <= PART * ord) && e[0] % 64 == ord
    ensures Order(e[0]) == ord && (IsLast(e) <==> ord == LastPart(m)) && e[0] != 0 && e[0] != DELETED
  {
    PartBounds(m, ord);
  }

  lemma CompareEntry(buf: seq<nat>, e: Slot, m: Name, ord: nat, sum: byte, up: nat -> nat)
    requires m != [] && |m| <= MAX_LFN && 0 < ord <= LastPart(m) && IsLfnEntry(e, m, ord, sum)
    ensures Compare(buf, e, up) == PartSame(buf, m, ord, up)
  {
    OrderOf(e, m, ord, sum);
    ComparePart(buf, e, m, ord, PART * (ord - 1), 0, up);
    PartSameIs(buf, m, ord, up);
  }

  /** All parts up to `ord` compared. */
  predicate AllSame(buf: seq<nat>, m: Name, ord: nat, up: nat -> nat) {
    ord == 0 || (PartSame(buf, m, ord, up) && AllSame(buf, m, ord - 1, up))
  }

  lemma {:induction false} SameAt(buf: seq<nat>, m: Name, i: nat, end: nat, up: nat -> nat, k: nat)
    requires SameUpTo(buf, m, i, end, up) && i <= k < end && k <= |m|
    ensures SameChar(buf, m, k, up)
    decreases end - i
  {
    if i < k {
      SameAt(buf, m, i + 1, end, up, k);
    }
  }

  lemma {:induction false} AllSameAt(buf: seq<nat>, m: Name, ord: nat, up: nat -> nat, k: nat)
    requires AllSame(buf, m, ord, up) && k < PART * ord && k <= |m|
    ensures SameChar(buf, m, k, up)
  {
    PartSameIs(buf, m, ord, up);
    if PART * (ord - 1) <= k {
      SameAt(buf, m, PART * (ord - 1), PART * ord, up, k);
    } else {
      AllSameAt(buf, m, ord - 1, up, k);
    }
  }

  lemma {:induction false} SameFrom(buf: seq<nat>, m: Name, i: nat, end: nat, up: nat -> nat)
    requires forall k: nat :: k <= |m| ==> SameChar(buf, m, k, up)
    ensures SameUpTo(buf, m, i, end, up)
    decreases end - i
  {
    if i < end && i <= |m| {
      SameFrom(buf, m, i + 1, end, up);
    }
  }

  lemma {:induction false} AllSameFrom(buf: seq<nat>, m: Name, ord: nat, up: nat -> nat)
    requires |m| < |buf| && buf[|m|] == 0 && forall k: nat :: k <= |m| ==> SameChar(buf, m, k, up)
    ensures AllSame(buf, m, ord, up)
  {
    if ord > 0 {
      SameFrom(buf, m, PART * (ord - 1), PART * ord, up);
      PartSameIs(buf, m, ord, up);
      AllSameFrom(buf, m, ord - 1, up);
    }
  }

  /** All the parts of a name are those of the name in the buffer exactly if the names are the same but for case,
      whatever lies in the buffer behind the name. */
  lemma AllSameIff(buf: seq<nat>, m: Name, n: Name, up: nat -> nat)
    requires KeepsEnd(up) && m != [] && |m| <= MAX_LFN && |buf| == MAX_LFN + 1 && Collected(buf, n, 0)
    ensures AllSame(buf, m, LastPart(m), up) <==> SameName(m, n, up)
  {
    PartBounds(m, LastPart(m));
    PartSameIs(buf, m, LastPart(m), up);
    if AllSame(buf, m, LastPart(m), up) {
      forall k: nat | k < |m| ensures k < |buf| && up(m[k]) == up(buf[k]) && buf[k] != 0 {
        AllSameAt(buf, m, LastPart(m), up, k);
      }
      if |m| < PART * LastPart(m) {
        AllSameAt(buf, m, LastPart(m), up, |m|);
      }
      assert buf[|m|] == 0;
      assert buf[|n|] == 0;
      assert |n| == |m|;
    }
    if SameName(m, n, up) {
      AllSameFrom(buf, m, LastPart(m), up);
    }
  }

  // Going through the entries.

  /** What is known while entries are gone through: the order of the long-name entry to come and the checksum. */
  datatype Track = Track(ord: nat, sum: byte)

  /** What is looked for: a name in the buffer, and its short name unless that lost something. */
  datatype Sought = Sought(buf: seq<nat>, fn: Sfn, loss: bool)

  /** An entry without data for dir_find: deleted, or of a volume label. */
  predicate NoData(e: Slot) {
    e[0] == DELETED || (Attr(e) / AM_VOL % 2 == 1 && Attr(e) != AM_LFN)
  }

  /** A long-name entry compared. */
  function Compared(t: Track, e: Slot, q: Sought, up: nat -> nat): Track {
    var sum := if IsLast(e) then e[LDIR_CHKSUM] else t.sum;
    var ord := if IsLast(e) then Order(e[0]) else t.ord;
    var c := if IsLast(e) then Order(e[0]) else e[0];
    Track(if c == ord && sum == e[LDIR_CHKSUM] && Compare(q.buf, e, up) && 0 < ord then ord - 1 else NO_ORDER, sum)
  }

  datatype Find = Missing | At(k: nat)

  /** The short-name entry is that of the object looked for. */
  predicate IsSought(t: Track, e: Slot, q: Sought) {
    (t.ord == 0 && t.sum == SumFrom(e[..11], 0)) || (!q.loss && e[..11] == q.fn)
  }

  /** The object looked for, from entry `k` on. */
  function SeekFrom(d: seq<Slot>, k: nat, t: Track, q: Sought, up: nat -> nat): Find
    decreases |d| - k
  {
    if k >= |d| || d[k][0] == 0 then Missing
    else if NoData(d[k]) then SeekFrom(d, k + 1, t.(ord := NO_ORDER), q, up)
    else if Attr(d[k]) == AM_LFN then SeekFrom(d, k + 1, Compared(t, d[k], q, up), q, up)
    else if IsSought(t, d[k], q) then At(k)
    else SeekFrom(d, k + 1, t.(ord := NO_ORDER), q, up)
  }

  /** The object of an item is the one looked for: its name is the same but for case, or its short name is. */
  predicate Matches(o: Item, n: Name, q: Sought, up: nat -> nat) {
    (o.short.lfn && SameName(o.name, n, up)) || (!q.loss && o.fn == q.fn)
  }

  /** The next long-name entry of a name: what is known is on the way on exactly if it was and the part is the same. */
  lemma ComparedPart(t: Track, e: Slot, m: Name, ord: nat, sum: byte, q: Sought, up: nat -> nat)
    requires m != [] && |m| <= MAX_LFN && 0 < ord <= LastPart(m) && IsLfnEntry(e, m, ord, sum)
    requires ord < LastPart(m) ==> t.ord == NO_ORDER || t == Track(ord, sum)
    ensures var v := Compared(t, e, q, up);
            if PartSame(q.buf, m, ord, up) && (ord < LastPart(m) ==> t == Track(ord, sum)) then v == Track(ord - 1, sum)
            else v.ord == NO_ORDER
    ensures e[0] != 0 && !NoData(e) && Attr(e) == AM_LFN && ord < NO_ORDER
  {
    OrderOf(e, m, ord, sum);
    CompareEntry(q.buf, e, m, ord, sum, up);
  }

  /** A run of long-name entries gone through leads to order 0 and the checksum exactly if all parts are the same. */
  lemma {:induction false} SeekParts(d: seq<Slot>, k: nat, m: Name, ord: nat, sum: byte, t: Track, q: Sought,
      up: nat -> nat) returns (u: Track)
    requires m != [] && |m| <= MAX_LFN && ord <= LastPart(m) && LfnRun(d, k, m, ord, sum) && k + ord <= |d|
    requires ord < LastPart(m) ==> t.ord == NO_ORDER || t == Track(ord, sum)
    ensures SeekFrom(d, k, t, q, up) == SeekFrom(d, k + ord, u, q, up)
    ensures (ord == 0 ==> u == t) && (ord > 0 ==> u.ord == NO_ORDER || u == Track(0, sum))
    ensures ord > 0 ==> (u == Track(0, sum) <==>
              AllSame(q.buf, m, ord, up) && (ord < LastPart(m) ==> t == Track(ord, sum)))
    decreases ord
  {
    u := t;
    if ord > 0 {
      ComparedPart(t, d[k], m, ord, sum, q, up);
      u := SeekParts(d, k + 1, m, ord - 1, sum, Compared(t, d[k], q, up), q, up);
    }
  }

  /** The entries of an item gone through: it is found exactly if it is the one looked for. */
  lemma SeekBlock(d: seq<Slot>, k: nat, o: Item, t: Track, n: Name, q: Sought, up: nat -> nat) returns (u: Track)
    requires IsItem(o) && HasBlock(d, k, o) && t.ord == NO_ORDER && Looked(n, q, up)
    ensures u.ord == NO_ORDER && SeekFrom(d, k, t, q, up) ==
              if Matches(o, n, q, up) then At(k + Length(o) - 1) else SeekFrom(d, k + Length(o), u, q, up)
  {
    ItemIs(o);
    BlockIs(d, k, o);
    var m, sum := Parts(o.name, o.short.lfn), SumFrom(o.fn, 0);
    u := SeekParts(d, k, o.name, m, sum, t, q, up);
    var e := d[k + m];
    assert e[0] == e[..11][0] && !NoData(e) && Attr(e) != AM_LFN;
    AllSameIff(q.buf, o.name, n, up);
    if o.short.lfn {
      PartBounds(o.name, m);
    }
    assert IsSought(u, e, q) <==> Matches(o, n, q, up);
    u := u.(ord := NO_ORDER);
  }

  /** The name and its short name are fit to be looked for. */
  ghost predicate Looked(n: Name, q: Sought, up: nat -> nat) {
    KeepsEnd(up) && |q.buf| == MAX_LFN + 1 && Collected(q.buf, n, 0) && (!q.loss ==> Usable(q.fn))
  }

  /** Item `i` of a catalogue is the first that is looked for, and its short-name entry is at `k`. */
  ghost predicate FoundItem(d: seq<Slot>, items: seq<Item>, i: nat, k: nat, n: Name, q: Sought, up: nat -> nat) {
    && i < |items| && Matches(items[i], n, q, up) && (forall j :: 0 <= j < i ==> !Matches(items[j], n, q, up))
    && Length(items[i]) <= k + 1 && HasBlock(d, k + 1 - Length(items[i]), items[i])
  }

  /** An entry that dir_read passes over is passed over. */
  lemma SeekVoid(d: seq<Slot>, k: nat, t: Track, n: Name, q: Sought, up: nat -> nat) returns (u: Track)
    requires k < |d| && d[k][0] != 0 && IsVoid(d[k]) && t.ord == NO_ORDER && Looked(n, q, up)
    ensures u.ord == NO_ORDER && SeekFrom(d, k, t, q, up) == SeekFrom(d, k + 1, u, q, up)
  {
    var e := d[k];
    u := if NoData(e) then t else if Attr(e) == AM_LFN then Compared(t, e, q, up) else t;
    assert e[..11][0] == e[0];
  }

  /** Looking through a catalogued directory: the first item looked for is found, and nothing exactly if there is
      none. */
  lemma {:induction false} SeekCatalog(d: seq<Slot>, p: nat, items: seq<Item>, t: Track, n: Name, q: Sought,
      up: nat -> nat)
    requires IsCatalog(d, p, items) && t.ord == NO_ORDER && Looked(n, q, up)
    ensures SeekFrom(d, p, t, q, up) == Missing <==> forall o :: o in items ==> !Matches(o, n, q, up)
    ensures SeekFrom(d, p, t, q, up).At? ==> exists i :: FoundItem(d, items, i, SeekFrom(d, p, t, q, up).k, n, q, up)
    decreases |d| - p
  {
    if p < |d| && d[p][0] != 0 {
      if IsVoid(d[p]) {
        var u := SeekVoid(d, p, t, n, q, up);
        SeekCatalog(d, p + 1, items, u, n, q, up);
      } else {
        SeekOn(d, p, items, t, n, q, up);
      }
    }
  }

  lemma SeekOn(d: seq<Slot>, p: nat, items: seq<Item>, t: Track, n: Name, q: Sought, up: nat -> nat)
    requires items != [] && IsItem(items[0]) && HasBlock(d, p, items[0])
             && IsCatalog(d, p + Length(items[0]), items[1..])
    requires p < |d| && t.ord == NO_ORDER && Looked(n, q, up)
    ensures SeekFrom(d, p, t, q, up) == Missing <==> forall o :: o in items ==> !Matches(o, n, q, up)
    ensures SeekFrom(d, p, t, q, up).At? ==> exists i :: FoundItem(d, items, i, SeekFrom(d, p, t, q, up).k, n, q, up)
    decreases |d| - p, 0
  {
    var o, rest := items[0], items[1..];
    var u := SeekBlock(d, p, o, t, n, q, up);
    if Matches(o, n, q, up) {
      assert FoundItem(d, items, 0, p + Length(o) - 1, n, q, up);
    } else {
      SeekCatalog(d, p + Length(o), rest, u, n, q, up);
      var f := SeekFrom(d, p, t, q, up);
      assert forall x :: x in items <==> x == o || x in rest;
      if f.At? {
        var i: nat :| FoundItem(d, rest, i, f.k, n, q, up);
        assert FoundItem(d, items, i + 1, f.k, n, q, up);
      }
    }
  }

  // dir_find.

  /** Looking from entry `k` on with what is known comes to the same as looking from the start. */
  predicate Underway(list: seq<Slot>, f: Find, k: nat, t: Track, q: Sought, up: nat -> nat) {
    SeekFrom(list, k, t, q, up) == f
  }

  /** A long-name entry dealt with. */
  method CompareLfn(t: Track, e: Slot, q: Sought, up: nat -> nat) returns (u: Track)
    requires |q.buf| == MAX_LFN + 1
    ensures u == Compared(t, e, q, up)
  {
    var ord, sum, c := t.ord, t.sum, e[0] as nat;
    if IsLast(e) {
      sum := e[LDIR_CHKSUM];
      c := Order(e[0]);
      ord := c;
    }
    u := Track(NO_ORDER, sum);
    if c == ord && sum == e[LDIR_CHKSUM] {
      var same := CmpLfn(q.buf, e, up);
      if same && 0 < ord {
        u := Track(ord - 1, sum);
      }
    }
  }

  datatype Glance = GoOn(track: Track) | Ended | Sighted

  /** One entry dealt with. */
  method GlanceAt(e: Slot, t: Track, q: Sought, up: nat -> nat, ghost list: seq<Slot>, ghost f: Find, ghost k: nat)
      returns (l: Glance)
    requires k < |list| && e == list[k] && Underway(list, f, k, t, q, up) && |q.buf| == MAX_LFN + 1
    ensures l.GoOn? ==> Underway(list, f, k + 1, l.track, q, up)
    ensures l.Ended? ==> f == Missing
    ensures l.Sighted? ==> f == At(k)
  {
    if e[0] == 0 {
      return Ended;
    }
    if NoData(e) {
      return GoOn(t.(ord := NO_ORDER));
    }
    if Attr(e) == AM_LFN {
      var u := CompareLfn(t, e, q, up);
      return GoOn(u);
    }
    var sum := SumSfn(e[..11]);
    if (t.ord == 0 && t.sum == sum) || (!q.loss && e[..11] == q.fn) {
      return Sighted;
    }
    l := GoOn(t.(ord := NO_ORDER));
  }

  /** dir_find: the object with a name, at its short-name entry. */
  method DirFind(d: Dir, q: Sought, up: nat -> nat, ghost list: seq<Slot>) returns (res: FResult, ghost k: nat)
    requires Ready(d, -1, list) && |q.buf| == MAX_LFN + 1
    modifies d, d.fs
    ensures Ready(d, -1, list) && (res == FR_OK || res == FR_NO_FILE || res == FR_DISK_ERR)
    ensures res == FR_OK ==> Ready(d, k, list) && SeekFrom(list, 0, Track(NO_ORDER, FIRST_SUM), q, up) == At(k)
    ensures res == FR_NO_FILE ==> SeekFrom(list, 0, Track(NO_ORDER, FIRST_SUM), q, up) == Missing
  {
    var t := Track(NO_ORDER, FIRST_SUM);
    ghost var f := SeekFrom(list, 0, t, q, up);
    k := 0;
    HasFirst(d, list);
    res := GoTo(d, 0, 0, list);
    while res == FR_OK
      invariant Ready(d, -1, list) && (res == FR_OK || res == FR_NO_FILE || res == FR_DISK_ERR)
      invariant res == FR_OK ==> Ready(d, k, list) && Underway(list, f, k, t, q, up)
      invariant res == FR_NO_FILE ==> f == Missing
      decreases res == FR_OK, |list| - k
    {
      var e;
      res, e := ReadSlot(d, k, list);
      ReadyAnywhere(d, k, list);
      if res == FR_OK {
        var l := GlanceAt(e, t, q, up, list, f, k);
        match l {
          case Sighted => return FR_OK, k;
          case Ended => res := FR_NO_FILE;
          case GoOn(u) =>
            t := u;
            res := Step(d, k, list);
            k := k + 1;
        }
      }
    }
  }

  // A name stored is found, whatever case it is given in.

  /** The mapping to upper case is the plain one on ASCII. */
  ghost predicate KeepsPlain(up: nat -> nat) {
    KeepsEnd(up) && forall c: nat :: c < 0x80 ==> up(c) == Up(c)
  }

  /** Names that are the same but for case, among those that can be stored. */
  predicate SameUp(m: Name, n: Name) {
    |m| == |n| && forall i :: 0 <= i < |m| ==> Up(m[i]) == Up(n[i])
  }

  lemma SameUpIff(m: Name, n: Name, up: nat -> nat)
    requires KeepsPlain(up) && AllLegal(m) && AllLegal(n)
    ensures SameName(m, n, up) <==> SameUp(m, n)
  {
    assert forall i :: 0 <= i < |m| ==> Legal(m[i]) && up(m[i]) == Up(m[i]);
    assert forall i :: 0 <= i < |n| ==> Legal(n[i]) && up(n[i]) == Up(n[i]);
  }

  lemma {:induction false} SameSplit(m: Name, n: Name, k: nat)
    requires SameUp(m, n) && k <= |m|
    ensures BehindDot(m, k) == BehindDot(n, k)
  {
    if k > 0 {
      assert Up(m[k - 1]) == Up(n[k - 1]);
      SameSplit(m, n, k - 1);
    }
  }

  /** They have the same parts but for case, and so the same short name if that loses nothing. */
  lemma SameShort(m: Name, r: Short, n: Name, s: Short)
    requires SameUp(m, n) && ShortOf(m, r) && ShortOf(n, s) && !r.loss
    ensures !s.loss && s.fn == r.fn
  {
    SameSplit(m, n, |m|);
    SplitIs(m);
    Fits83Is(m);
    Fits83Is(n);
    ShortOfIs(m, r);
    ShortOfIs(n, s);
    SamePart(Body(m), Body(n));
    SamePart(Ext(m), Ext(n));
    PaddedOnce(r.fn[..8], s.fn[..8], Body(m), Body(n));
    PaddedOnce(r.fn[8..], s.fn[8..], Ext(m), Ext(n));
    assert r.fn == r.fn[..8] + r.fn[8..] && s.fn == s.fn[..8] + s.fn[8..];
  }

  lemma SamePart(a: Name, b: Name)
    requires SameUp(a, b) && AllPlain(a)
    ensures AllPlain(b)
  {
    forall i | 0 <= i < |b| ensures Plain(b[i]) {
      assert Plain(a[i]) && Up(a[i]) == Up(b[i]);
    }
  }

  lemma PaddedOnce(f: seq<byte>, g: seq<byte>, a: Name, b: Name)
    requires |f| == |g| && SameUp(a, b) && Padded(f, a)
    ensures Padded(g, b) ==> f == g
  {
  }

  /** An item whose name is the same as one looked for, but for case, is found. */
  lemma SameIsFound(o: Item, n: Name, r: Short, q: Sought, up: nat -> nat)
    requires IsItem(o) && KeepsPlain(up) && AllLegal(n) && ShortOf(n, r) && q.fn == r.fn && q.loss == r.loss
    requires SameName(o.name, n, up)
    ensures Matches(o, n, q, up)
  {
    ItemIs(o);
    SameUpIff(o.name, n, up);
    if !o.short.lfn {
      ShortOfIs(o.name, o.short);
      SameShort(o.name, o.short, n, r);
    }
  }

  lemma {:induction false} ItemsAre(d: seq<Slot>, p: nat, items: seq<Item>)
    requires IsCatalog(d, p, items)
    ensures forall o :: o in items ==> IsItem(o)
    decreases |d| - p
  {
    if p < |d| && d[p][0] != 0 {
      if IsVoid(d[p]) {
        ItemsAre(d, p + 1, items);
      } else {
        ItemsAre(d, p + Length(items[0]), items[1..]);
        assert forall o :: o in items <==> o == items[0] || o in items[1..];
      }
    }
  }

  /** The name buffer with a name in it, before whatever it held. */
  function Buffer(n: Name, junk: seq<nat>): (buf: seq<nat>)
    requires |n| < |junk|
    ensures |buf| == |junk| && Collected(buf, n, 0)
  {
    var text: seq<nat> := n;
    text + [0] + junk[|n| + 1..]
  }

  /** A path resolved in a directory that holds some items: create_name and dir_find. The first item is found whose
      name is the one given but for case, or whose short name is; it is not found only if no item has that name. */
  method Lookup(d: Dir, path: seq<Ascii>, junk: seq<nat>, up: nat -> nat, ghost list: seq<Slot>, ghost items: seq<Item>)
    returns (res: FResult, ghost k: nat, ghost i: nat, ghost q: Sought, ghost r: Short)
    requires Ready(d, -1, list) && IsCatalog(list, 0, items) && KeepsPlain(up) && |junk| == MAX_LFN + 1
    modifies d, d.fs
    ensures Ready(d, -1, list) && (res == FR_INVALID_NAME <==> !Storable(path))
    ensures res == FR_OK || res == FR_INVALID_NAME || res == FR_NO_FILE || res == FR_DISK_ERR
    ensures res == FR_OK ==>
              && Ready(d, k, list) && ShortOf(Trim(Segment(path)), r) && q.fn == r.fn && q.loss == r.loss
              && FoundItem(list, items, i, k, Trim(Segment(path)), q, up)
    ensures res == FR_NO_FILE ==> forall o :: o in items ==> !SameName(o.name, Trim(Segment(path)), up)
  {
    var c := CreateName(path);
    k, i := 0, 0;
    if !c.Named? {
      q, r := *, *;
      return FR_INVALID_NAME, 0, 0, q, r;
    }
    var sought := Sought(Buffer(c.name, junk), c.short.fn, c.short.loss);
    q, r := sought, c.short;
    ShortOfIs(c.name, c.short);
    UsableName(c.name, c.short);
    SeekCatalog(list, 0, items, Track(NO_ORDER, FIRST_SUM), c.name, q, up);
    ItemsAre(list, 0, items);
    res, k := DirFind(d, sought, up, list);
    if res == FR_OK {
      i :| FoundItem(list, items, i, k, c.name, q, up);
    } else if res == FR_NO_FILE {
      forall o | o in items ensures !SameName(o.name, c.name, up) {
        if SameName(o.name, c.name, up) {
          SameIsFound(o, c.name, r, q, up);
          assert false;
        }
      }
    }
  }

  /** The short name of a name that lost nothing can begin an entry. */
  lemma UsableName(n: Name, r: Short)
    requires ShortOf(n, r)
    ensures !r.loss ==> Usable(r.fn)
  {
    ShortOfIs(n, r);
  }

  /** A name stored is found again, in whatever case it is asked for; what is found is the first item that has the name
      or its short name, and the directory holds the new name besides the old ones. */
  method StoreThenFind(d: Dir, path: seq<Ascii>, again: seq<Ascii>, junk: seq<nat>, up: nat -> nat,
      ghost was: seq<Slot>, ghost items: seq<Item>)
    returns (stored: FResult, found: FResult, ghost now: seq<Slot>, ghost more: seq<Item>, ghost k: nat, ghost i: nat,
      ghost q: Sought, ghost r: Short)
    requires Ready(d, -1, was) && IsCatalog(was, 0, items) && KeepsPlain(up) && |junk| == MAX_LFN + 1
    modifies d, d.fs
    ensures stored == FR_OK ==> multiset(Names(more)) == multiset(Names(items)) + multiset{Trim(Segment(path))}
    ensures stored == FR_OK ==> (found == FR_INVALID_NAME <==> !Storable(again))
    ensures stored == FR_OK ==>
              found == FR_OK || found == FR_INVALID_NAME || found == FR_NO_FILE || found == FR_DISK_ERR
    ensures stored == FR_OK && found == FR_OK ==>
              && Ready(d, k, now) && IsCatalog(now, 0, more) && ShortOf(Trim(Segment(again)), r)
              && q.fn == r.fn && q.loss == r.loss && FoundItem(now, more, i, k, Trim(Segment(again)), q, up)
    ensures stored == FR_OK && found == FR_NO_FILE ==>
              forall o :: o in more ==> !SameName(o.name, Trim(Segment(again)), up)
    ensures stored == FR_OK && SameName(Trim(Segment(path)), Trim(Segment(again)), up) ==> found != FR_NO_FILE
  {
    found, k, i, q, r := FR_DISK_ERR, 0, 0, *, *;
    stored, now, more := AddName(d, path, was, items);
    if stored == FR_OK {
      assert Trim(Segment(path)) in multiset(Names(more));
      HasName(more, Trim(Segment(path)));
      found, k, i, q, r := Lookup(d, again, junk, up, now, more);
    }
  }

  lemma {:induction false} HasName(items: seq<Item>, n: Name)
    ensures n in Names(items) ==> exists o :: o in items && o.name == n
  {
    if items != [] && items[0].name != n {
      HasName(items[1..], n);
    }
  }
}
