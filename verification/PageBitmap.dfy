/** The bitmap of physical pages and the page allocator on top of it. */
module PageBitmap {

  const PAGE_SIZE := 4096

  /** Bit i of a byte. */
  predicate BitOf(b: bv8, i: nat)
    requires i < 8
  {
    b & (1 << i) != 0
  }

  /** The byte with bit i cleared, then set if it is to be. */
  function WithBit(b: bv8, i: nat, value: bool): (r: bv8)
    requires i < 8
    ensures BitOf(r, i) == value
  {
    var mask: bv8 := 1 << i;
    var cleared := b & !mask;
    if value then cleared | mask else cleared
  }

  lemma OtherBit(b: bv8, i: nat, value: bool, j: nat)
    requires i < 8 && j < 8 && i != j
    ensures BitOf(WithBit(b, i, value), j) == BitOf(b, j)
  {
  }

  /** The indices of the set bits below n. */
  ghost function Indices(buf: seq<bv8>, n: nat): set<nat>
    requires n <= 8 * |buf|
  {
    if n == 0 then {} else Indices(buf, n - 1) + if BitOf(buf[(n - 1) / 8], (n - 1) % 8) then {n - 1} else {}
  }

  lemma {:induction false} IndicesAt(buf: seq<bv8>, n: nat, i: nat)
    requires n <= 8 * |buf|
    ensures i in Indices(buf, n) <==> i < n && BitOf(buf[i / 8], i % 8)
    decreases n
  {
    if n > 0 {
      IndicesAt(buf, n - 1, i);
    }
  }

  /** A bitmap of one byte with page 1 free and no other: the search, which looks at as many pages as there are bytes,
      looks at page 0 only. */
  lemma Overlooked(buf: seq<bv8>)
    requires buf == [2]
    ensures Indices(buf, 8) == {1} && forall i :: i in Indices(buf, 8) ==> i >= |buf|
  {
    forall i: nat ensures i in Indices(buf, 8) <==> i == 1 {
      IndicesAt(buf, 8, i);
      if i < 8 {
        OneBit(i);
      }
    }
  }

  lemma OneBit(i: nat)
    requires i < 8
    ensures BitOf(2, i) <==> i == 1
  {
    assert BitOf(2, 1) && !BitOf(2, 0) && !BitOf(2, 2) && !BitOf(2, 3);
    assert !BitOf(2, 4) && !BitOf(2, 5) && !BitOf(2, 6) && !BitOf(2, 7);
  }

  class Bitmap {
    const buffer: array<bv8>

    ghost function Pages(): set<nat>
      reads this, buffer
    {
      Indices(buffer[..], 8 * buffer.Length)
    }

    constructor (buffer: array<bv8>)
      ensures this.buffer == buffer
    {
      this.buffer := buffer;
    }

    /** The size in bytes. */
    function Size(): nat
      reads this
    {
      buffer.Length
    }

    /** Reads the bit: whether the index is in the set. */
    method Get(index: nat) returns (r: bool)
      requires index < 8 * buffer.Length
      ensures r <==> index in Pages()
    {
      IndicesAt(buffer[..], 8 * buffer.Length, index);
      r := BitOf(buffer[index / 8], index % 8);
    }

    /** Adds the index to the set or takes it out, and nothing else. */
    method Set(index: nat, value: bool)
      requires index < 8 * buffer.Length
      modifies buffer
      ensures Pages() == if value then old(Pages()) + {index} else old(Pages()) - {index}
    {
      ghost var was := buffer[..];
      buffer[index / 8] := WithBit(buffer[index / 8], index % 8, value);
      ghost var n := 8 * buffer.Length;
      forall j: nat ensures j in Pages() <==> if j == index then value else j in Indices(was, n) {
        IndicesAt(buffer[..], n, j);
        IndicesAt(was, n, j);
        if j < n && j / 8 == index / 8 && j != index {
          OtherBit(was[j / 8], index % 8, value, j % 8);
        }
      }
    }
  }

  const WORD := 0x1_0000_0000_0000_0000

  /** Memory moved from one count to the other, in 64 bits. */
  lemma Moved(a: int, b: int)
    ensures ((a - PAGE_SIZE) + (b + PAGE_SIZE) % WORD) % WORD == (a + b) % WORD
    ensures ((a + PAGE_SIZE) + (b - PAGE_SIZE) % WORD) % WORD == (a + b) % WORD
  {
    ModSum(a - PAGE_SIZE, b + PAGE_SIZE);
    ModSum(a + PAGE_SIZE, b - PAGE_SIZE);
  }

  lemma ModSum(a: int, b: int)
    ensures (a + b % WORD) % WORD == (a + b) % WORD
  {
    assert b == WORD * (b / WORD) + b % WORD;
  }

  /** The physical page allocator. */
  class Allocator {
    const bitmap: Bitmap
    var freeMemory: nat
    var usedMemory: nat

    /** The free pages. */
    ghost function Free(): set<nat>
      reads this, bitmap, bitmap.buffer
    {
      bitmap.Pages()
    }

    /** The memory counted as free is that of the free pages. */
    ghost predicate Valid()
      reads this, bitmap, bitmap.buffer
    {
      freeMemory == PAGE_SIZE * |Free()|
    }

    /** Some page is among those the search looks at: as many as the bitmap has bytes, not bits. */
    ghost predicate Available()
      reads this, bitmap, bitmap.buffer
    {
      exists i :: i in Free() && i < bitmap.Size()
    }

    constructor (bitmap: Bitmap, freeMemory: nat, usedMemory: nat)
      requires freeMemory == PAGE_SIZE * |bitmap.Pages()|
      ensures Valid() && this.bitmap == bitmap && this.freeMemory == freeMemory && this.usedMemory == usedMemory
    {
      this.bitmap, this.freeMemory, this.usedMemory := bitmap, freeMemory, usedMemory;
    }

    /** _nextBlock: the address of the first free page, 0 if there is none. */
    method NextBlock() returns (addr: nat)
      ensures addr % PAGE_SIZE == 0
      ensures Available() ==>
                && addr / PAGE_SIZE in Free() && addr / PAGE_SIZE < bitmap.Size()
                && forall j :: j in Free() ==> addr / PAGE_SIZE <= j
      ensures !Available() ==> addr == 0
    {
      var i := 0;
      while i < bitmap.Size()
        invariant 0 <= i <= bitmap.Size()
        invariant forall j :: j in Free() ==> i <= j
      {
        var free := bitmap.Get(i);
        if free {
          assert i * PAGE_SIZE / PAGE_SIZE == i;
          return i * PAGE_SIZE;
        }
        i := i + 1;
      }
      addr := 0;
    }

    /** So it can miss a free page, and is then no better than with none. */
    static method Missed() returns (a: Allocator, addr: nat)
      ensures fresh(a) && a.Valid() && a.Free() == {1} && !a.Available() && addr == 0
    {
      var buffer := new bv8[1][2];
      assert buffer[..] == [2];
      Overlooked(buffer[..]);
      var bitmap := new Bitmap(buffer);
      a := new Allocator(bitmap, PAGE_SIZE, 0);
      addr := a.NextBlock();
    }

    /** _lockBlock: the page is free no longer. */
    method LockBlock(addr: nat)
      requires Valid() && addr / PAGE_SIZE < 8 * bitmap.buffer.Length
      modifies this, bitmap.buffer
      ensures Valid() && Free() == old(Free()) - {addr / PAGE_SIZE}
      ensures (freeMemory + usedMemory) % WORD == old(freeMemory + usedMemory) % WORD
    {
      var free := bitmap.Get(addr / PAGE_SIZE);
      if free {
        Moved(freeMemory, usedMemory);
        assert |Free() - {addr / PAGE_SIZE}| == |Free()| - 1;
        freeMemory := freeMemory - PAGE_SIZE;
        usedMemory := (usedMemory + PAGE_SIZE) % WORD;
        bitmap.Set(addr / PAGE_SIZE, false);
      }
    }

    /** _freeBlock: the page is free. */
    method FreePage(addr: nat)
      requires Valid() && addr / PAGE_SIZE < 8 * bitmap.buffer.Length
      modifies this, bitmap.buffer
      ensures Valid() && Free() == old(Free()) + {addr / PAGE_SIZE}
      ensures (freeMemory + usedMemory) % WORD == old(freeMemory + usedMemory) % WORD
    {
      var free := bitmap.Get(addr / PAGE_SIZE);
      if !free {
        Moved(freeMemory, usedMemory);
        freeMemory := freeMemory + PAGE_SIZE;
        usedMemory := (usedMemory - PAGE_SIZE) % WORD;
        bitmap.Set(addr / PAGE_SIZE, true);
      }
    }

    /** allocatePage: the first free page, which is free no longer; 0 and no change if the search finds none. */
    method AllocatePage() returns (addr: nat)
      requires Valid() && bitmap.buffer.Length > 0
      modifies this, bitmap.buffer
      ensures Valid() && (freeMemory + usedMemory) % WORD == old(freeMemory + usedMemory) % WORD
      ensures addr % PAGE_SIZE == 0 && Free() == old(Free()) - {addr / PAGE_SIZE}
      ensures old(Available()) ==>
                && addr / PAGE_SIZE in old(Free()) && addr / PAGE_SIZE < bitmap.Size()
                && forall j :: j in old(Free()) ==> addr / PAGE_SIZE <= j
      ensures !old(Available()) ==> addr == 0 && Free() == old(Free())
    {
      addr := NextBlock();
      if !Available() {
        assert Free() - {0} == Free();
      }
      LockBlock(addr);
    }
  }
}
