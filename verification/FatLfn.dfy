/** Long-name entries of a directory: put_lfn and pick_lfn. */
module FatLfn {
  import opened FatBytes

  const LDIR_ORD := 0
  const LDIR_ATTR := 11
  const LDIR_TYPE := 12
  const LDIR_CHKSUM := 13
  const LDIR_FST_CLUS_LO := 26
  const AM_LFN := 0x0F
  const LLEF := 0x40
  const FILLER := 0xFFFF
  const PART := 13
  const MAX_LFN := 255

  /** A directory entry. */
  type Slot = e: seq<byte> | |e| == 32 witness seq(32, _ => 0)

  /** A character of a name, other than the end. */
  type Wide = c: int | 0 < c < 0xFFFF witness 1

  type Name = seq<Wide>

  /** Where the characters of an entry lie. */
  function Ofs(s: nat): (o: nat)
    requires s < PART
    ensures o + 2 <= 32
  {
    if s < 5 then 1 + 2 * s else if s < 11 then 4 + 2 * s else 6 + 2 * s
  }

  /** The characters of an entry lie apart from each other and from its other fields. */
  lemma OfsApart(s: nat, t: nat)
    requires s < PART && t < PART && s != t
    ensures Ofs(s) + 2 <= Ofs(t) || Ofs(t) + 2 <= Ofs(s)
  {
  }

  lemma OfsAside(s: nat)
    requires s < PART
    ensures 0 < Ofs(s) && (Ofs(s) + 2 <= 11 || 14 <= Ofs(s)) && (Ofs(s) + 2 <= 26 || 28 <= Ofs(s))
  {
  }

  function CharAt(e: Slot, s: nat): nat
    requires s < PART
  {
    LdWord(e, Ofs(s))
  }

  /** The character at a place of a name as it is stored: an end behind the last one, and then filling. */
  function Stored(n: Name, i: nat): (c: nat)
    ensures c < 0x1_0000
  {
    if i < |n| then n[i] else if i == |n| then 0 else FILLER
  }

  /** An entry holds part `ord` of a name. */
  predicate HoldsPart(e: Slot, n: Name, ord: nat)
    requires 0 < ord
  {
    forall s: nat :: s < PART ==> CharAt(e, s) == Stored(n, PART * (ord - 1) + s)
  }

  /** The last part of a name. */
  function LastPart(n: Name): nat {
    (|n| + PART - 1) / PART
  }

  function OrdByte(n: Name, ord: nat): nat {
    if ord == LastPart(n) then ord + LLEF else ord
  }

  /** What put_lfn makes of an entry. */
  predicate IsLfnEntry(e: Slot, n: Name, ord: nat, sum: byte)
    requires 0 < ord
  {
    && HoldsPart(e, n, ord) && e[LDIR_ORD] == OrdByte(n, ord) && e[LDIR_ATTR] == AM_LFN && e[LDIR_CHKSUM] == sum
    && LdWord(e, LDIR_FST_CLUS_LO) == 0
  }

  lemma PartBounds(n: Name, ord: nat)
    requires n != [] && 0 < ord <= LastPart(n)
    ensures PART * (ord - 1) < |n| && (ord == LastPart(n) <==> |n| <= PART * ord)
    ensures |n| <= MAX_LFN ==> ord <= 20
  {
  }

  /** put_lfn: an entry filled with a part of a name. */
  method PutLfn(n: Name, old_: Slot, ord: nat, sum: byte) returns (e: Slot)
    requires n != [] && |n| <= MAX_LFN && 0 < ord <= LastPart(n)
    ensures IsLfnEntry(e, n, ord, sum)
  {
    PartBounds(n, ord);
    e := old_[LDIR_CHKSUM := sum][LDIR_ATTR := AM_LFN][LDIR_TYPE := 0];
    e := StWord(e, LDIR_FST_CLUS_LO, 0);
    var i, s, wc := PART * (ord - 1), 0, 0;
    while s < PART
      invariant s <= PART && e[LDIR_CHKSUM] == sum && e[LDIR_ATTR] == AM_LFN && LdWord(e, LDIR_FST_CLUS_LO) == 0
      invariant forall t: nat :: t < s ==> CharAt(e, t) == Stored(n, PART * (ord - 1) + t)
      invariant if PART * (ord - 1) + s <= |n| then i == PART * (ord - 1) + s && wc != FILLER else wc == FILLER
    {
      if wc != FILLER {
        wc := if i < |n| then n[i] else 0;
        i := i + 1;
      }
      assert wc == Stored(n, PART * (ord - 1) + s);
      e := PutChar(e, s, wc);
      if wc == 0 {
        wc := FILLER;
      }
      s := s + 1;
    }
    ghost var u := e;
    e := e[LDIR_ORD := if wc == FILLER || i == |n| then ord + LLEF else ord];
    forall t: nat | t < PART ensures CharAt(e, t) == CharAt(u, t) {
      OfsAside(t);
    }
  }

  /** One character put into an entry. */
  method PutChar(d: Slot, s: nat, c: nat) returns (e: Slot)
    requires s < PART && c < 0x1_0000
    ensures CharAt(e, s) == c && forall t: nat :: t < PART && t != s ==> CharAt(e, t) == CharAt(d, t)
    ensures && e[LDIR_CHKSUM] == d[LDIR_CHKSUM] && e[LDIR_ATTR] == d[LDIR_ATTR]
            && LdWord(e, LDIR_FST_CLUS_LO) == LdWord(d, LDIR_FST_CLUS_LO)
  {
    e := StWord(d, Ofs(s), c);
    OfsAside(s);
    forall t: nat | t < PART && t != s ensures CharAt(e, t) == CharAt(d, t) {
      OfsApart(s, t);
    }
  }

  /** The order of an entry without the mark of the last one. */
  function Order(b: byte): nat {
    if b / LLEF % 2 == 1 then b - LLEF else b
  }

  /** The buffer holds a name from a place on, up to and with its end. */
  predicate Collected(buf: seq<nat>, n: Name, from: nat) {
    |n| < |buf| && forall i :: from <= i <= |n| ==> buf[i] == if i < |n| then n[i] else 0
  }

  /** What picking leaves in the buffer, and where and whether the name has ended. */
  datatype Picked = Failed(buf: seq<nat>) | Picked(buf: seq<nat>, next: int, ended: bool)

  /** The characters of an entry from `s` on put into the buffer from `i` on, until the name has ended. */
  function PickFrom(buf: seq<nat>, e: Slot, i: int, ended: bool, s: nat): (p: Picked)
    requires s <= PART
    ensures |p.buf| == |buf|
    decreases PART - s
  {
    if s == PART then Picked(buf, i, ended)
    else if !ended then
      if 0 <= i < |buf| then PickFrom(buf[i := CharAt(e, s)], e, i + 1, CharAt(e, s) == 0, s + 1) else Failed(buf)
    else if CharAt(e, s) == FILLER then PickFrom(buf, e, i, true, s + 1)
    else Failed(buf)
  }

  function IsLast(e: Slot): bool {
    e[LDIR_ORD] / LLEF % 2 == 1
  }

  /** The buffer after an entry, if the entry is well formed and fits. */
  function Pick(buf: seq<nat>, e: Slot): (p: Picked)
    ensures |p.buf| == |buf|
  {
    if LdWord(e, LDIR_FST_CLUS_LO) != 0 then Failed(buf)
    else
      var p := PickFrom(buf, e, (Order(e[LDIR_ORD]) - 1) * PART, false, 0);
      if p.Failed? || p.ended || !IsLast(e) then p
      else if 0 <= p.next < |p.buf| then p.(buf := p.buf[p.next := 0]) else Failed(p.buf)
  }

  /** pick_lfn. */
  method PickLfn(buf: seq<nat>, e: Slot) returns (p: Picked)
    requires |buf| == MAX_LFN + 1
    ensures p == Pick(buf, e)
  {
    if LdWord(e, LDIR_FST_CLUS_LO) != 0 {
      return Failed(buf);
    }
    var r: seq<nat>, i, s, ended := buf, (Order(e[LDIR_ORD]) - 1) * PART, 0, false;
    while s < PART
      invariant s <= PART && |r| == |buf|
      invariant PickFrom(buf, e, (Order(e[LDIR_ORD]) - 1) * PART, false, 0) == PickFrom(r, e, i, ended, s)
    {
      var uc := CharAt(e, s);
      if !ended {
        if i < 0 || i >= MAX_LFN + 1 {
          return Failed(r);
        }
        r, i, ended := r[i := uc], i + 1, uc == 0;
      } else if uc != FILLER {
        return Failed(r);
      }
      s := s + 1;
    }
    if IsLast(e) && !ended {
      if i < 0 || i >= MAX_LFN + 1 {
        return Failed(r);
      }
      r := r[i := 0];
    }
    p := Picked(r, i, ended);
  }

  /** The characters of a part of a name picked. */
  lemma {:induction false} PickFromPart(buf: seq<nat>, e: Slot, n: Name, ord: nat, s: nat)
    requires 0 < ord && HoldsPart(e, n, ord) && s <= PART && |n| < |buf|
    requires var i := PART * (ord - 1) + s; i <= |n| || (s > 0 && i == |n| + 1)
    ensures var i := PART * (ord - 1) + s;
            var p := PickFrom(buf, e, i, i == |n| + 1, s);
            && p.Picked? && |p.buf| == |buf|
            && (forall j ::
                  0 <= j < |buf| ==>
                    p.buf[j] == if i <= j < PART * ord && j <= |n| then if j < |n| then n[j] else 0 else buf[j])
            && p.ended == (|n| < PART * ord) && (!p.ended ==> p.next == PART * ord)
    decreases PART - s
  {
    var i := PART * (ord - 1) + s;
    if s < PART {
      assert CharAt(e, s) == Stored(n, i);
      if i <= |n| {
        if i < |n| || s + 1 == PART {
          PickFromPart(buf[i := CharAt(e, s)], e, n, ord, s + 1);
        } else {
          PickFiller(buf[i := CharAt(e, s)], e, n, ord, i + 1, s + 1);
        }
      } else {
        PickFiller(buf, e, n, ord, i, s);
      }
    }
  }

  /** Behind the end of a name there is only filling. */
  lemma {:induction false} PickFiller(buf: seq<nat>, e: Slot, n: Name, ord: nat, i: nat, s: nat)
    requires 0 < ord && HoldsPart(e, n, ord) && s <= PART && |n| < PART * (ord - 1) + s
    ensures PickFrom(buf, e, i, true, s) == Picked(buf, i, true)
    decreases PART - s
  {
    if s < PART {
      assert CharAt(e, s) == Stored(n, PART * (ord - 1) + s);
      PickFiller(buf, e, n, ord, i, s + 1);
    }
  }

  /** Picking what put_lfn has made gives that part of the name back, and its end with the last part. */
  lemma PickedBack(buf: seq<nat>, e: Slot, n: Name, ord: nat, sum: byte)
    requires |buf| == MAX_LFN + 1 && n != [] && |n| <= MAX_LFN && 0 < ord <= LastPart(n) && IsLfnEntry(e, n, ord, sum)
    requires ord == LastPart(n) || Collected(buf, n, PART * ord)
    ensures var p := Pick(buf, e); p.Picked? && |p.buf| == |buf| && Collected(p.buf, n, PART * (ord - 1))
  {
    PartBounds(n, ord);
    assert Order(e[LDIR_ORD]) == ord && (IsLast(e) <==> ord == LastPart(n));
    PickFromPart(buf, e, n, ord, 0);
  }
}
