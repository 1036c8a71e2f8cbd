/** The entries of a directory table, and what reading them in order finds. */
module FatSlots {
  import opened FatBytes
  import opened FatTable
  import opened FatVolume
  import opened FatLayout
  import opened DirTable
  import opened FatLfn
  import opened FatSfn

  const DIR_ATTR := 11
  const DIR_NT_RES := 12
  const AM_VOL := 0x08
  const NO_ORDER := 0xFF
  const NS_BODY := 0x08
  const NS_EXT := 0x10

  /** Entry `k` of a table. */
  function SlotAt(g: VolumeGeometry, rest: Disk, t: Table, k: nat): Slot
    requires ProperTable(g, t) && HasPart(g, t, k / 16) && |rest| == g.sectors - RestBase(g)
  {
    rest[Part(g, t, k / 16)][k % 16 * ENTRY_SIZE..k % 16 * ENTRY_SIZE + 32]
  }

  /** The entries of a table from `k` on. */
  function SlotsFrom(g: VolumeGeometry, rest: Disk, t: Table, k: nat): seq<Slot>
    requires ProperTable(g, t) && |rest| == g.sectors - RestBase(g)
    decreases MAX_DIR - ENTRY_SIZE * k
  {
    if HasSlot(g, t, k) then [SlotAt(g, rest, t, k)] + SlotsFrom(g, rest, t, k + 1) else []
  }

  /** All entries of a table. */
  function Slots(g: VolumeGeometry, rest: Disk, t: Table): seq<Slot>
    requires ProperTable(g, t) && |rest| == g.sectors - RestBase(g)
  {
    SlotsFrom(g, rest, t, 0)
  }

  lemma SlotBefore(g: VolumeGeometry, t: Table, i: nat, k: nat)
    requires HasSlot(g, t, k) && i <= k
    ensures HasSlot(g, t, i)
  {
    PartBefore(g, t, i / 16, k / 16);
  }

  lemma {:induction false} SlotsFromIs(g: VolumeGeometry, rest: Disk, t: Table, k: nat, i: nat)
    requires ProperTable(g, t) && |rest| == g.sectors - RestBase(g) && k <= i
    ensures var d := SlotsFrom(g, rest, t, k);
            (i - k < |d| <==> HasSlot(g, t, i)) && (HasSlot(g, t, i) ==> d[i - k] == SlotAt(g, rest, t, i))
    decreases MAX_DIR - ENTRY_SIZE * k
  {
    if HasSlot(g, t, i) {
      SlotBefore(g, t, k, i);
    }
    if HasSlot(g, t, k) && k < i {
      SlotsFromIs(g, rest, t, k + 1, i);
    }
  }

  /** The table's entries one by one. */
  lemma SlotsAre(g: VolumeGeometry, rest: Disk, t: Table, i: nat)
    requires ProperTable(g, t) && |rest| == g.sectors - RestBase(g)
    ensures && (i < |Slots(g, rest, t)| <==> HasSlot(g, t, i))
            && (HasSlot(g, t, i) ==> Slots(g, rest, t)[i] == SlotAt(g, rest, t, i))
  {
    SlotsFromIs(g, rest, t, 0, i);
  }

  // The checksum that ties long-name entries to a short name.

  function SumStep(sum: nat, b: byte): nat {
    (sum / 2 + sum % 2 * 128 + b) % 256
  }

  function SumFrom(f: seq<byte>, sum: byte): (r: byte) {
    if f == [] then sum else SumFrom(f[1..], SumStep(sum, f[0]))
  }

  /** sum_sfn. */
  method SumSfn(f: Sfn) returns (sum: byte)
    ensures sum == SumFrom(f, 0)
  {
    sum := 0;
    var n := 0;
    while n < 11
      invariant n <= 11 && SumFrom(f[n..], sum) == SumFrom(f, 0)
    {
      assert f[n..][1..] == f[n + 1..];
      sum := SumStep(sum, f[n]);
      n := n + 1;
    }
  }

  // Reading.

  /** What is known while entries are read: the order of the long-name entry to come, the checksum and the name so
      far. */
  datatype Scan = Scan(ord: nat, sum: byte, buf: seq<nat>)

  /** The attributes, and whether they mark a volume label. */
  function Attr(e: Slot): nat {
    e[DIR_ATTR] % 64
  }

  predicate IsLabel(e: Slot) {
    Attr(e) % 32 == AM_VOL
  }

  /** An entry that is neither part of a name nor one itself. */
  predicate IsVoid(e: Slot) {
    e[0] == DELETED || e[0] == DOT || IsLabel(e)
  }

  /** A long-name entry seen. */
  function Seen(s: Scan, e: Slot): Scan {
    var sum := if IsLast(e) then e[LDIR_CHKSUM] else s.sum;
    var ord := if IsLast(e) then Order(e[0]) else s.ord;
    var b := if IsLast(e) then Order(e[0]) else e[0];
    if b == ord && sum == e[LDIR_CHKSUM] then
      var p := Pick(s.buf, e);
      Scan(if p.Picked? && 0 < ord then ord - 1 else NO_ORDER, sum, p.buf)
    else Scan(NO_ORDER, sum, s.buf)
  }

  datatype Reading = NoMore | Object(k: nat, long: bool, buf: seq<nat>)

  /** The next object from entry `k` on. */
  function ReadFrom(d: seq<Slot>, k: nat, s: Scan): Reading
    decreases |d| - k
  {
    if k >= |d| || d[k][0] == 0 then NoMore
    else if IsVoid(d[k]) then ReadFrom(d, k + 1, s.(ord := NO_ORDER))
    else if Attr(d[k]) == AM_LFN then ReadFrom(d, k + 1, Seen(s, d[k]))
    else Object(k, s.ord == 0 && s.sum == SumFrom(d[k][..11], 0), s.buf)
  }

  // The entries of a name.

  function CaseFlags(body: bool, ext: bool): byte {
    (if body then NS_BODY else 0) + if ext then NS_EXT else 0
  }

  /** The short-name entry of an object that is no volume label, whatever its other attributes, times, size and first
      cluster. */
  predicate IsSfnEntry(e: Slot, f: Sfn, body: bool, ext: bool) {
    e[..11] == f && Attr(e) / AM_VOL % 2 == 0 && e[DIR_NT_RES] == CaseFlags(body, ext)
  }

  /** The number of long-name entries that go with a name. */
  function Parts(n: Name, long: bool): nat {
    if long then LastPart(n) else 0
  }

  /** Entries from `k` on are the long-name entries for the parts `ord` down to 1 of a name. */
  predicate LfnRun(d: seq<Slot>, k: nat, n: Name, ord: nat, sum: byte)
    decreases ord
  {
    ord == 0 || (k < |d| && IsLfnEntry(d[k], n, ord, sum) && LfnRun(d, k + 1, n, ord - 1, sum))
  }

  /** Entries from `k` on hold a name: the long-name entries, last part first, and the short-name entry. */
  predicate IsBlock(d: seq<Slot>, k: nat, n: Name, r: Short, f: Sfn) {
    var m := Parts(n, r.lfn);
    LfnRun(d, k, n, m, SumFrom(f, 0)) && k + m < |d| && IsSfnEntry(d[k + m], f, r.body, r.ext)
  }

  /** A short name that an entry can begin with. */
  predicate Usable(f: Sfn) {
    f[0] != 0 && f[0] != DELETED && f[0] != DOT
  }

  /** A long-name entry just put is seen as the next part of its name. */
  lemma SeenPart(s: Scan, e: Slot, n: Name, ord: nat, sum: byte)
    requires n != [] && |n| <= MAX_LFN && 0 < ord <= LastPart(n) && |s.buf| == MAX_LFN + 1 && IsLfnEntry(e, n, ord, sum)
    requires ord < LastPart(n) ==> s.ord == ord && s.sum == sum && Collected(s.buf, n, PART * ord)
    ensures var v := Seen(s, e);
            v.ord == ord - 1 && v.sum == sum && |v.buf| == |s.buf| && Collected(v.buf, n, PART * (ord - 1))
    ensures e[0] != 0 && !IsVoid(e) && Attr(e) == AM_LFN
  {
    PartBounds(n, ord);
    PickedBack(s.buf, e, n, ord, sum);
  }

  /** The long-name entries read, from the one for part `ord` on, and then the short-name entry. */
  lemma {:induction false} ReadParts(d: seq<Slot>, k: nat, n: Name, r: Short, f: Sfn, ord: nat, s: Scan)
    requires n != [] && |n| <= MAX_LFN && ord <= LastPart(n) && |s.buf| == MAX_LFN + 1 && Usable(f)
    requires LfnRun(d, k, n, ord, SumFrom(f, 0)) && k + ord < |d| && IsSfnEntry(d[k + ord], f, r.body, r.ext)
    requires ord < LastPart(n) ==> s.ord == ord && s.sum == SumFrom(f, 0) && Collected(s.buf, n, PART * ord)
    requires 0 < LastPart(n)
    ensures var q := ReadFrom(d, k, s); q.Object? && q.k == k + ord && q.long && Collected(q.buf, n, 0)
    decreases ord
  {
    if ord == 0 {
      assert d[k][0] == d[k][..11][0];
    } else {
      SeenPart(s, d[k], n, ord, SumFrom(f, 0));
      ReadParts(d, k + 1, n, r, f, ord - 1, Seen(s, d[k]));
    }
  }

  /** A registered object is found where it is, with its long name if it has one. */
  lemma ReadBlock(d: seq<Slot>, k: nat, n: Name, r: Short, f: Sfn, s: Scan)
    requires && n != [] && |n| <= MAX_LFN && |s.buf| == MAX_LFN + 1 && Usable(f) && IsBlock(d, k, n, r, f)
             && s.ord == NO_ORDER
    ensures var q := ReadFrom(d, k, s);
            q.Object? && q.k == k + Parts(n, r.lfn) && q.long == r.lfn && (r.lfn ==> Collected(q.buf, n, 0))
  {
    if r.lfn {
      ReadParts(d, k, n, r, f, LastPart(n), s);
    } else {
      assert d[k][0] == d[k][..11][0];
    }
  }

  // Changing entries.

  /** Different parts of a table lie in different sectors. */
  lemma PartInjective(g: VolumeGeometry, t: Table, i: nat, j: nat)
    requires ProperTable(g, t) && HasPart(g, t, i) && HasPart(g, t, j) && Part(g, t, i) == Part(g, t, j)
    ensures i == j
  {
    if t.Chained? {
      LbaInjective(g, t.chain, i, j);
    }
  }

  /** A sector with one entry replaced. */
  function WithSlot(s: Sector, o: nat, e: Slot): (r: Sector)
    requires o + 32 <= 512
    ensures r[o..o + 32] == e
  {
    s[..o] + e + s[o + 32..]
  }

  lemma OtherSlot(s: Sector, o: nat, e: Slot, p: nat)
    requires o + 32 <= 512 && p + 32 <= 512 && (p + 32 <= o || o + 32 <= p)
    ensures WithSlot(s, o, e)[p..p + 32] == s[p..p + 32]
  {
    var r := WithSlot(s, o, e);
    assert forall j :: p <= j < p + 32 ==> r[j] == s[j];
  }

  /** What is behind the FATs, with entry `k` of a table replaced. */
  function PutAt(g: VolumeGeometry, rest: Disk, t: Table, k: nat, e: Slot): (r: Disk)
    requires ProperTable(g, t) && HasPart(g, t, k / 16) && |rest| == g.sectors - RestBase(g)
    ensures |r| == |rest|
  {
    var j := Part(g, t, k / 16);
    rest[j := WithSlot(rest[j], k % 16 * ENTRY_SIZE, e)]
  }

  lemma PutAtSlot(g: VolumeGeometry, rest: Disk, t: Table, k: nat, e: Slot, i: nat)
    requires ProperTable(g, t) && HasPart(g, t, k / 16) && HasPart(g, t, i / 16) && |rest| == g.sectors - RestBase(g)
    ensures SlotAt(g, PutAt(g, rest, t, k, e), t, i) == if i == k then e else SlotAt(g, rest, t, i)
  {
    if i / 16 == k / 16 {
      if i != k {
        OtherSlot(rest[Part(g, t, k / 16)], k % 16 * ENTRY_SIZE, e, i % 16 * ENTRY_SIZE);
      }
    } else if Part(g, t, i / 16) == Part(g, t, k / 16) {
      PartInjective(g, t, i / 16, k / 16);
    }
  }

  /** Replacing an entry replaces just that one. */
  lemma PutAtSlots(g: VolumeGeometry, rest: Disk, t: Table, k: nat, e: Slot)
    requires ProperTable(g, t) && HasSlot(g, t, k) && |rest| == g.sectors - RestBase(g)
    ensures k < |Slots(g, rest, t)| && Slots(g, PutAt(g, rest, t, k, e), t) == Slots(g, rest, t)[k := e]
  {
    var x, y := Slots(g, PutAt(g, rest, t, k, e), t), Slots(g, rest, t);
    SlotsAre(g, rest, t, k);
    SameCount(g, rest, t, PutAt(g, rest, t, k, e));
    forall i | 0 <= i < |y| ensures x[i] == y[k := e][i] {
      SlotsAre(g, rest, t, i);
      SlotsAre(g, PutAt(g, rest, t, k, e), t, i);
      PutAtSlot(g, rest, t, k, e, i);
    }
  }

  lemma SameCount(g: VolumeGeometry, rest: Disk, t: Table, rest': Disk)
    requires ProperTable(g, t) && |rest| == |rest'| == g.sectors - RestBase(g)
    ensures |Slots(g, rest, t)| == |Slots(g, rest', t)|
  {
    var a, b := |Slots(g, rest, t)|, |Slots(g, rest', t)|;
    SlotsAre(g, rest, t, a);
    SlotsAre(g, rest', t, a);
    SlotsAre(g, rest, t, b);
    SlotsAre(g, rest', t, b);
  }

  // Numbered short names.

  const TILDE := 0x7E

  /** A hexadecimal digit. */
  function Digit(v: nat): byte
    requires v < 16
  {
    if v < 10 then 0x30 + v else 0x37 + v
  }

  /** One bit of a character mixed into a number. */
  function MixBit(sreg: bv32, wc: bv32): bv32 {
    var r := (sreg << 1) + (wc & 1);
    if r & 0x1_0000 != 0 then r ^ 0x1_1021 else r
  }

  /** The bits of a character from bit `i` on. */
  function MixChar(sreg: bv32, wc: bv32, i: nat): bv32
    decreases 16 - i
  {
    if i >= 16 then sreg else MixChar(MixBit(sreg, wc), wc >> 1, i + 1)
  }

  /** The characters of a name from `k` on. */
  function MixName(sreg: bv32, n: Name, k: nat): bv32
    decreases |n| - k
  {
    if k >= |n| then sreg else MixName(MixChar(sreg, (n[k] as int) as bv32, 0), n, k + 1)
  }

  /** The number that goes into a numbered name: a small one as it is, a larger one mixed with the long name. */
  function Mixed(n: Name, number: nat): nat
    requires number < 0x1_0000
  {
    if number <= 5 then number else MixName(number as bv32, n, 0) as nat
  }

  method Mix(n: Name, number: nat) returns (v: nat)
    requires number < 0x1_0000
    ensures v == Mixed(n, number)
  {
    v := number;
    if number > 5 {
      var sreg, k := number as bv32, 0;
      while k < |n|
        invariant k <= |n| && MixName(number as bv32, n, 0) == MixName(sreg, n, k)
      {
        var wc, i := (n[k] as int) as bv32, 0;
        ghost var before := sreg;
        while i < 16
          invariant i <= 16 && MixChar(before, (n[k] as int) as bv32, 0) == MixChar(sreg, wc, i)
        {
          sreg := (sreg << 1) + (wc & 1);
          wc := wc >> 1;
          if sreg & 0x1_0000 != 0 {
            sreg := sreg ^ 0x1_1021;
          }
          i := i + 1;
        }
        k := k + 1;
      }
      v := sreg as nat;
    }
  }

  /** The last digits of a number, as many as there are but no more than `most`. */
  function Hex(v: nat, most: nat): (r: seq<byte>)
    ensures |r| <= most && (v > 0 && most > 0 ==> r != [])
  {
    if v == 0 || most == 0 then [] else Hex(v / 16, most - 1) + [Digit(v % 16)]
  }

  /** The digits put behind the tilde: at least one. */
  function Digits(v: nat): (r: seq<byte>)
    ensures 1 <= |r| <= 7
  {
    Hex(v / 16, 6) + [Digit(v % 16)]
  }

  /** The suffix of a numbered name: a tilde and at most seven digits, the last ones of the number. */
  method Suffix(number: nat) returns (ns: seq<byte>)
    ensures ns == [TILDE] + Digits(number) && Printable(ns) && SPACE !in ns
  {
    var v := number;
    ns := [Digit(v % 16)];
    v := v / 16;
    while |ns| < 7 && v != 0
      invariant 1 <= |ns| <= 7 && Printable(ns) && SPACE !in ns
      invariant Digits(number) == Hex(v, 7 - |ns|) + ns
    {
      HexMore(v, 7 - |ns|, ns);
      ns := [Digit(v % 16)] + ns;
      v := v / 16;
    }
    ns := [TILDE] + ns;
  }

  lemma HexMore(v: nat, most: nat, ns: seq<byte>)
    requires v > 0 && most > 0
    ensures Hex(v, most) + ns == Hex(v / 16, most - 1) + ([Digit(v % 16)] + ns)
  {
    assert Hex(v, most) == Hex(v / 16, most - 1) + [Digit(v % 16)];
  }

  /** The characters before the first space, no more than `most`. */
  function Stem(s: seq<byte>, most: nat): (r: seq<byte>)
    requires most <= |s|
    ensures |r| <= most && r == s[..|r|]
  {
    if most == 0 || s[0] == SPACE then [] else [s[0]] + Stem(s[1..], most - 1)
  }

  lemma {:induction false} StemIs(s: seq<byte>, most: nat, j: nat)
    requires j <= most <= |s| && SPACE !in s[..j] && (j == most || s[j] == SPACE)
    ensures Stem(s, most) == s[..j]
    decreases j
  {
    if j > 0 {
      assert s[0] == s[..j][0] && s[1..][..j - 1] == s[..j][1..];
      StemIs(s[1..], most - 1, j - 1);
    }
  }

  /** A short name with number v: as much of its stem as leaves room, the suffix, and spaces; the extension stays. */
  predicate Numbered(src: Sfn, dst: Sfn, v: nat) {
    var ns := [TILDE] + Digits(v);
    var b := Stem(src, 8 - |ns|) + ns;
    dst[8..] == src[8..] && b <= dst[..8] && forall i :: |b| <= i < 8 ==> dst[i] == SPACE
  }

  /** The short name with a number for a long name. The countdown only keeps proofs from looking inside where
      HasNumberIs is not called. */
  predicate HasNumber(src: Sfn, n: Name, number: nat, dst: Sfn) {
    HasNumberAfter(src, n, number, dst, |n|)
  }

  predicate OpenHasNumber(src: Sfn, n: Name, number: nat, dst: Sfn) {
    number < 0x1_0000 && Numbered(src, dst, Mixed(n, number))
  }

  predicate HasNumberAfter(src: Sfn, n: Name, number: nat, dst: Sfn, countdown: nat) {
    if countdown > 0 then HasNumberAfter(src, n, number, dst, countdown - 1) else OpenHasNumber(src, n, number, dst)
  }

  lemma {:induction false} HasNumberAfterIs(src: Sfn, n: Name, number: nat, dst: Sfn, countdown: nat)
    ensures HasNumberAfter(src, n, number, dst, countdown) <==> OpenHasNumber(src, n, number, dst)
  {
    if countdown > 0 {
      HasNumberAfterIs(src, n, number, dst, countdown - 1);
    }
  }

  lemma HasNumberIs(src: Sfn, n: Name, number: nat, dst: Sfn)
    ensures HasNumber(src, n, number, dst) <==> OpenHasNumber(src, n, number, dst)
  {
    HasNumberAfterIs(src, n, number, dst, |n|);
  }

  /** gen_numname: a short name with a number put into its body, cut off as far as it must be. */
  method GenNumName(src: Sfn, n: Name, number: nat) returns (dst: Sfn)
    requires Printable(src) && number < 0x1_0000
    ensures Printable(dst) && Usable(dst) && HasNumber(src, n, number, dst)
  {
    var mixed := Mix(n, number);
    var ns := Suffix(mixed);
    var j: nat := 0;
    while j < 8 - |ns| && src[j] != SPACE
      invariant j <= 8 - |ns| && SPACE !in src[..j]
    {
      j := j + 1;
    }
    StemIs(src, 8 - |ns|, j);
    var body := FillUp(src[..j] + ns);
    dst := body + src[8..];
    assert dst[..8] == body && dst[8..] == src[8..];
    assert dst[0] == (src[..j] + ns)[0];
    HasNumberIs(src, n, number, dst);
  }

  /** Spaces behind a body. */
  method FillUp(b: seq<byte>) returns (body: seq<byte>)
    requires |b| <= 8 && Printable(b)
    ensures |body| == 8 && Printable(body) && b <= body && forall i :: |b| <= i < 8 ==> body[i] == SPACE
  {
    body := b;
    while |body| < 8
      invariant |b| <= |body| <= 8 && Printable(body) && b <= body && forall i :: |b| <= i < |body| ==> body[i] == SPACE
    {
      body := body + [SPACE];
    }
  }

  /** Different small numbers give different names. */
  lemma NumbersApart(src: Sfn, dst: Sfn, dst': Sfn, v: nat, v': nat)
    requires Numbered(src, dst, v) && Numbered(src, dst', v') && v <= 5 && v' <= 5 && v != v'
    ensures dst != dst'
  {
    SmallDigits(v);
    SmallDigits(v');
    var k := |Stem(src, 6)| + 1;
    var b, b' := Stem(src, 6) + ([TILDE] + Digits(v)), Stem(src, 6) + ([TILDE] + Digits(v'));
    assert b[k] == dst[..8][k] == dst[k] && b'[k] == dst'[..8][k] == dst'[k];
  }

  lemma SmallDigits(v: nat)
    requires v <= 5
    ensures Digits(v) == [0x30 + v]
  {
  }
}
