/** Reading directories: dir_read, get_fileinfo and f_readdir, and what a name stored reads back as. */
module FatReaddir {
  import opened FatBytes
  import opened FatVolume
  import opened DirTable
  import opened FatDir
  import opened FatLfn
  import opened FatSfn
  import opened FatSlots
  import opened FatCatalog
  import opened FatNames

  // dir_read.

  /** A long-name entry taken in. */
  method SeeLfn(s: Scan, e: Slot) returns (v: Scan)
    requires |s.buf| == MAX_LFN + 1
    ensures v == Seen(s, e) && |v.buf| == |s.buf|
  {
    var ord, sum, b := s.ord, s.sum, e[0] as nat;
    if IsLast(e) {
      sum := e[LDIR_CHKSUM];
      b := Order(e[0]);
      ord := b;
    }
    v := Scan(NO_ORDER, sum, s.buf);
    if b == ord && sum == e[LDIR_CHKSUM] {
      var p := PickLfn(s.buf, e);
      v := Scan(if p.Picked? && 0 < ord then ord - 1 else NO_ORDER, sum, p.buf);
    }
  }

  const FIRST_SUM := 0xFF

  /** Reading from entry `k` on with what has been seen comes to the same as reading from the start. */
  predicate Underway(list: seq<Slot>, q: Reading, k: nat, s: Scan) {
    ReadFrom(list, k, s) == q && |s.buf| == MAX_LFN + 1
  }

  datatype Look = More(scan: Scan) | Stop | Hit(long: bool)

  /** One entry dealt with. */
  method LookAt(e: Slot, s: Scan, ghost list: seq<Slot>, ghost q: Reading, ghost k: nat) returns (l: Look)
    requires k < |list| && e == list[k] && Underway(list, q, k, s)
    ensures l.More? ==> Underway(list, q, k + 1, l.scan)
    ensures l.Stop? ==> q == NoMore
    ensures l.Hit? ==> q == Object(k, l.long, s.buf)
  {
    if e[0] == 0 {
      return Stop;
    }
    if IsVoid(e) {
      return More(s.(ord := NO_ORDER));
    }
    if Attr(e) == AM_LFN {
      var v := SeeLfn(s, e);
      return More(v);
    }
    var sum := SumSfn(e[..11]);
    l := Hit(s.ord == 0 && s.sum == sum);
  }

  /** The directory object taken out of use. */
  method EndRead(d: Dir, ghost list: seq<Slot>)
    requires Ready(d, -1, list)
    modifies d`sect
    ensures Ready(d, -1, list) && d.sect == 0
  {
    ReadyIs(d, -1, list);
    Listed(d);
    d.sect := 0;
    Listed(d);
    ReadyIs(d, -1, list);
  }

  /** dir_read: the next object of a directory, at its short-name entry and with its long name in the buffer if it has
      a valid one. */
  method ReadObject(d: Dir, buf: seq<nat>, ghost k: nat, ghost list: seq<Slot>)
    returns (res: FResult, e: Slot, long: bool, r: seq<nat>, ghost at: nat)
    requires Ready(d, -1, list) && (d.sect != 0 ==> Ready(d, k, list)) && |buf| == MAX_LFN + 1
    modifies d, d.fs
    ensures Ready(d, -1, list) && (res == FR_OK || res == FR_NO_FILE || res == FR_DISK_ERR)
    ensures res == FR_OK ==> ReadFrom(list, k, Scan(NO_ORDER, FIRST_SUM, buf)) == Object(at, long, r)
    ensures res == FR_OK ==> Ready(d, at, list) && at < |list| && e == list[at] && old(d.sect) != 0 && d.sect != 0
    ensures res == FR_NO_FILE ==> old(d.sect) == 0 || ReadFrom(list, k, Scan(NO_ORDER, FIRST_SUM, buf)) == NoMore
    ensures res != FR_OK ==> d.sect == 0
  {
    var s := Scan(NO_ORDER, FIRST_SUM, buf);
    ghost var q := ReadFrom(list, k, s);
    at, long, r := k, false, buf;
    res, e := FR_NO_FILE, Blank();
    if d.sect != 0 {
      res := FR_OK;
    }
    while res == FR_OK
      invariant Ready(d, -1, list) && (res == FR_OK || res == FR_NO_FILE || res == FR_DISK_ERR)
      invariant res == FR_OK ==> Ready(d, at, list) && Underway(list, q, at, s) && old(d.sect) != 0
      invariant res == FR_NO_FILE ==> old(d.sect) == 0 || q == NoMore
      decreases res == FR_OK, |list| - at
    {
      res, e := ReadSlot(d, at, list);
      ReadyAnywhere(d, at, list);
      if res == FR_OK {
        var l := LookAt(e, s, list, q, at);
        match l {
          case Hit(isLong) =>
            InUse(d, at, list);
            return FR_OK, e, isLong, s.buf, at;
          case Stop => res := FR_NO_FILE;
          case More(v) =>
            s := v;
            res := Step(d, at, list);
            at := at + 1;
        }
      }
    }
    EndRead(d, list);
  }

  lemma InUse(d: Dir, k: nat, list: seq<Slot>)
    requires Ready(d, k, list)
    ensures d.sect != 0
  {
    ReadyIs(d, k, list);
    PlaceKind(d.fs.g, d.table, k, d.Here());
  }

  function Blank(): Slot {
    [0, 0, 0, 0, 0, 0, 0, 0, 0, 0, 0, 0, 0, 0, 0, 0, 0, 0, 0, 0, 0, 0, 0, 0, 0, 0, 0, 0, 0, 0, 0, 0]
  }

  // get_fileinfo.

  /** The long name in the buffer in the code page. */
  method DecodeName(buf: seq<nat>, oem: nat -> Code) returns (name: seq<nat>)
    ensures name == Decode(buf, 0, 0, [], oem)
  {
    name := [];
    var si: nat, hs: nat := 0, 0;
    while si < |buf| && buf[si] != 0
      invariant si <= |buf| && Decode(buf, si, hs, name, oem) == Decode(buf, 0, 0, [], oem)
      decreases |buf| - si
    {
      var wc := buf[si];
      si := si + 1;
      if hs == 0 && IsSurrogate(wc) {
        hs := wc;
      } else {
        var w := oem(hs * 0x1_0000 + wc);
        if (w >= 0x100 && |name| + 2 > LFN_BUF) || w == 0 || |name| + 1 > LFN_BUF {
          return [];
        }
        name := name + if w >= 0x100 then [w / 0x100, w % 0x100] else [w];
        hs := 0;
      }
    }
    if hs != 0 {
      name := [];
    }
  }

  /** get_fileinfo: the name of the object whose short-name entry has been read. */
  method GetFileInfo(e: Slot, long: bool, buf: seq<nat>, oem: nat -> Code) returns (name: seq<nat>)
    ensures name == Spelling(e, long, buf, oem)
  {
    name := [];
    if long {
      name := DecodeName(buf, oem);
    }
    var alt := AltName(e[..11]);
    if name == [] {
      if alt == [] {
        name := [QUESTION];
      } else {
        name := WithCase(alt, BodySmall(e), ExtSmall(e));
      }
    }
  }

  // f_readdir.

  /** Where the directory object is after the object at entry `at`: on the next entry, or out of use behind the last
      one. */
  ghost predicate Behind(d: Dir, at: nat, list: seq<Slot>)
    reads d, d.fs
  {
    Ready(d, -1, list) && if d.sect != 0 then Ready(d, at + 1, list) && at + 1 < |list| else |list| <= at + 1
  }

  /** f_readdir: the name of the next object, or an empty one at the end; `buf` is whatever the name buffer holds. */
  method ReadDir(d: Dir, buf: seq<nat>, oem: nat -> Code, ghost k: nat, ghost list: seq<Slot>)
    returns (res: FResult, name: seq<nat>, ghost q: Reading)
    requires Ready(d, -1, list) && (d.sect != 0 ==> Ready(d, k, list)) && |buf| == MAX_LFN + 1
    modifies d, d.fs
    ensures Ready(d, -1, list) && (res == FR_OK || res == FR_DISK_ERR)
    ensures q == if old(d.sect) == 0 then NoMore else ReadFrom(list, k, Scan(NO_ORDER, FIRST_SUM, buf))
    ensures res == FR_OK && q.NoMore? ==> name == [] && d.sect == 0
    ensures res == FR_OK && q.Object? ==>
              q.k < |list| && name == Spelling(list[q.k], q.long, q.buf, oem) && Behind(d, q.k, list)
  {
    var e, long, r;
    ghost var at;
    q := if d.sect == 0 then NoMore else ReadFrom(list, k, Scan(NO_ORDER, FIRST_SUM, buf));
    name := [];
    res, e, long, r, at := ReadObject(d, buf, k, list);
    if res == FR_NO_FILE {
      res := FR_OK;
    } else if res == FR_OK {
      name := GetFileInfo(e, long, r, oem);
      res := StepBehind(d, at, list);
    }
  }

  /** To the next entry, or out of use. */
  method StepBehind(d: Dir, ghost at: nat, ghost list: seq<Slot>) returns (res: FResult)
    requires Ready(d, at, list)
    modifies d, d.fs
    ensures Ready(d, -1, list) && (res == FR_OK || res == FR_DISK_ERR)
    ensures res == FR_OK ==> Behind(d, at, list)
  {
    res := Step(d, at, list);
    if res == FR_NO_FILE {
      res := FR_OK;
    } else if res == FR_OK {
      InUse(d, at + 1, list);
    }
  }

  /** The directory object has the items of a list before it. */
  ghost predicate Before(d: Dir, k: nat, list: seq<Slot>, items: seq<Item>)
    reads d, d.fs
  {
    Ready(d, -1, list) && if d.sect == 0 then items == [] else Ready(d, k, list) && IsCatalog(list, k, items)
  }

  function Names(items: seq<Item>): seq<Name> {
    if items == [] then [] else [items[0].name] + Names(items[1..])
  }

  /** One call of f_readdir on a directory that holds some items: the name of the first of them, and then the others
      are before it. */
  method ReadItem(d: Dir, buf: seq<nat>, oem: nat -> Code, ghost k: nat, ghost list: seq<Slot>, ghost items: seq<Item>)
    returns (res: FResult, name: seq<nat>, ghost next: nat)
    requires Before(d, k, list, items) && KeepsAscii(oem) && |buf| == MAX_LFN + 1
    modifies d, d.fs
    ensures Ready(d, -1, list) && (res == FR_OK || res == FR_DISK_ERR)
    ensures res == FR_OK && items == [] ==> name == []
    ensures res == FR_OK && items != [] ==> name == items[0].name && name != [] && Before(d, next, list, items[1..])
  {
    ghost var q;
    if d.sect != 0 {
      ReadNext(list, k, items, Scan(NO_ORDER, FIRST_SUM, buf), oem);
    }
    if items != [] {
      NamedItem(list, k, items);
    }
    res, name, q := ReadDir(d, buf, oem, k, list);
    next := if q.Object? then q.k + 1 else k;
  }

  lemma {:induction false} NamedItem(list: seq<Slot>, k: nat, items: seq<Item>)
    requires IsCatalog(list, k, items) && items != []
    ensures items[0].name != []
    decreases |list| - k
  {
    if IsVoid(list[k]) {
      NamedItem(list, k + 1, items);
    } else {
      ItemIs(items[0]);
    }
  }

  /** Reading a directory from its start until an empty name comes gives the names of its items, all of them and in
      their order. */
  method List(d: Dir, buf: seq<nat>, oem: nat -> Code, ghost list: seq<Slot>, ghost items: seq<Item>)
      returns (res: FResult, names: seq<seq<nat>>)
    requires Ready(d, -1, list) && IsCatalog(list, 0, items) && KeepsAscii(oem) && |buf| == MAX_LFN + 1
    modifies d, d.fs
    ensures Ready(d, -1, list) && (res == FR_OK || res == FR_DISK_ERR)
    ensures res == FR_OK ==> names == Names(items)
  {
    names := [];
    HasFirst(d, list);
    res := GoTo(d, 0, 0, list);
    if res != FR_OK {
      return;
    }
    ghost var left, k: nat := items, 0;
    InUse(d, 0, list);
    while true
      invariant Before(d, k, list, left) && names + Names(left) == Names(items)
      decreases |left|
    {
      var name;
      res, name, k := ReadItem(d, buf, oem, k, list, left);
      if res != FR_OK {
        return;
      }
      if name == [] {
        assert names + [] == names;
        return;
      }
      Moved(names, left);
      names := names + [name];
      left := left[1..];
    }
  }

  lemma Moved(names: seq<seq<nat>>, left: seq<Item>)
    requires left != []
    ensures (names + [left[0].name]) + Names(left[1..]) == names + Names(left)
  {
  }

  // Names stored.

  /** A name stored and read back at once, from where it was put. */
  method StoreAndRead(d: Dir, path: seq<Ascii>, buf: seq<nat>, oem: nat -> Code, ghost was: seq<Slot>)
      returns (res: FResult, name: seq<nat>)
    requires Ready(d, -1, was) && KeepsAscii(oem) && |buf| == MAX_LFN + 1
    modifies d, d.fs
    ensures res == FR_OK ==> name == Trim(Segment(path)) && name != []
    ensures res == FR_INVALID_NAME <==> !Storable(path)
    ensures res == FR_DENIED ==> exists r :: ShortOf(Trim(Segment(path)), r) && Refused(d, Trim(Segment(path)), r, was)
    ensures res == FR_OK || res == FR_INVALID_NAME || res == FR_DENIED || res == FR_DISK_ERR
  {
    name := [];
    var c := CreateName(path);
    if !c.Named? {
      return FR_INVALID_NAME, name;
    }
    ghost var o, a, mid, now;
    res, o, a, mid, now := Register(d, c.name, c.short, was);
    if res == FR_OK {
      res, name := ReadBack(d, if c.short.lfn then (|c.name| + 12) / 13 else 0, buf, oem, o, a, now, was, mid);
    }
  }

  /** A path begins with a name that a directory can have. */
  predicate Storable(path: seq<Ascii>) {
    var s := Segment(path);
    AllLegal(s) && |s| <= MAX_LFN && !IsDots(s) && Trim(s) != []
  }

  /** The item just registered read back. */
  method ReadBack(d: Dir, m: nat, buf: seq<nat>, oem: nat -> Code, ghost o: Item, ghost a: nat, ghost list: seq<Slot>,
      ghost was: seq<Slot>, ghost mid: seq<Slot>)
    returns (res: FResult, name: seq<nat>)
    requires && Ready(d, a + m, list) && Registered(was, mid, list, a, o) && m + 1 == Length(o) && KeepsAscii(oem)
             && |buf| == MAX_LFN + 1
    modifies d, d.fs
    ensures res == FR_OK || res == FR_DISK_ERR
    ensures res == FR_OK ==> name == o.name && name != []
  {
    name := [];
    Offset(d, a + m, list);
    ReadyAnywhere(d, a + m, list);
    RegisteredIs(was, mid, list, a, o);
    ItemIs(o);
    res := GoTo(d, d.dptr - m * ENTRY_SIZE, a, list);
    if res == FR_OK {
      ghost var q;
      InUse(d, a, list);
      ItemReadsBack(list, a, o, Scan(NO_ORDER, FIRST_SUM, buf), oem);
      res, name, q := ReadDir(d, buf, oem, a, list);
    }
  }

  /** One name more stored in a directory that holds some items. */
  method AddName(d: Dir, path: seq<Ascii>, ghost was: seq<Slot>, ghost items: seq<Item>)
    returns (res: FResult, ghost now: seq<Slot>, ghost more: seq<Item>)
    requires Ready(d, -1, was) && IsCatalog(was, 0, items)
    modifies d, d.fs
    ensures res == FR_INVALID_NAME <==> !Storable(path)
    ensures res == FR_OK ==> Ready(d, -1, now) && IsCatalog(now, 0, more)
    ensures res == FR_OK ==> multiset(Names(more)) == multiset(Names(items)) + multiset{Trim(Segment(path))}
  {
    now, more := was, items;
    var c := CreateName(path);
    if !c.Named? {
      return FR_INVALID_NAME, was, items;
    }
    ghost var o, a, mid;
    res, o, a, mid, now := Register(d, c.name, c.short, was);
    if res == FR_OK {
      ReadyAnywhere(d, a + Parts(c.name, c.short.lfn), now);
      more := CatalogRegistered(was, mid, now, a, items, o);
      InsertedNames(items, more, o);
    }
  }

  lemma InsertedNames(was: seq<Item>, now: seq<Item>, o: Item)
    requires Inserted(was, now, o)
    ensures multiset(Names(now)) == multiset(Names(was)) + multiset{o.name}
  {
    var i :| 0 <= i <= |was| && now == was[..i] + [o] + was[i..];
    NamesConcat(was[..i] + [o], was[i..]);
    NamesConcat(was[..i], [o]);
    NamesConcat(was[..i], was[i..]);
    assert was[..i] + was[i..] == was;
    OneName(o);
    Counted(Names(was[..i]), o.name, Names(was[i..]));
  }

  lemma OneName(o: Item)
    ensures Names([o]) == [o.name]
  {
    assert [o][1..] == [];
  }

  lemma Counted(a: seq<Name>, x: Name, b: seq<Name>)
    ensures multiset(a + [x] + b) == multiset(a + b) + multiset{x}
  {
  }

  lemma {:induction false} NamesConcat(a: seq<Item>, b: seq<Item>)
    ensures Names(a + b) == Names(a) + Names(b)
  {
    if a == [] {
      assert a + b == b;
    } else {
      assert (a + b)[1..] == a[1..] + b && (a + b)[0] == a[0];
      NamesConcat(a[1..], b);
    }
  }

  function Segments(paths: seq<seq<Ascii>>): seq<Name> {
    if paths == [] then [] else Segments(paths[..|paths| - 1]) + [Trim(Segment(paths[|paths| - 1]))]
  }

  /** Any run of names stored in a directory: reading it then gives the names that were there and those stored, each
      as often as it was stored. */
  method StoreAll(d: Dir, paths: seq<seq<Ascii>>, buf: seq<nat>, oem: nat -> Code, ghost was: seq<Slot>,
      ghost items: seq<Item>)
    returns (res: FResult, names: seq<seq<nat>>)
    requires Ready(d, -1, was) && IsCatalog(was, 0, items) && KeepsAscii(oem) && |buf| == MAX_LFN + 1
    modifies d, d.fs
    ensures res == FR_OK ==> multiset(names) == multiset(Names(items)) + multiset(Segments(paths))
  {
    ghost var now, more := was, items;
    var i := 0;
    names := [];
    assert paths[..0] == [];
    while i < |paths|
      invariant i <= |paths| && Ready(d, -1, now) && IsCatalog(now, 0, more)
      invariant multiset(Names(more)) == multiset(Names(items)) + multiset(Segments(paths[..i]))
    {
      res, now, more := AddName(d, paths[i], now, more);
      if res != FR_OK {
        return;
      }
      SegmentsMore(paths, i);
      i := i + 1;
    }
    assert paths[..i] == paths;
    res, names := List(d, buf, oem, now, more);
  }

  lemma SegmentsMore(paths: seq<seq<Ascii>>, i: nat)
    requires i < |paths|
    ensures multiset(Segments(paths[..i + 1])) == multiset(Segments(paths[..i])) + multiset{Trim(Segment(paths[i]))}
  {
    assert paths[..i + 1][..i] == paths[..i];
  }
}
