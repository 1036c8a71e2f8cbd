/** The packed FAT12/16/32 allocation table, read off an array of sectors. */
module FatTable {
  import opened FatBytes

  datatype FatType = FAT12 | FAT16 | FAT32

  type Disk = seq<Sector>

  const MAX_FAT12 := 0xFF5
  const MAX_FAT16 := 0xFFF5
  const MAX_FAT32 := 0x0FFF_FFF5

  /** What mounting fixes about a volume: type, sizes and region bases, in sectors. */
  datatype Geometry = Geometry(
    fatType: FatType, nFats: nat, csize: nat, nRootdir: nat, nFatent: nat, fsize: nat,
    volbase: nat, fatbase: nat, dirbase: nat, database: nat, sectors: nat)

  function MaxClusters(t: FatType): nat {
    match t case FAT12 => MAX_FAT12 case FAT16 => MAX_FAT16 case FAT32 => MAX_FAT32
  }

  /** Bytes that a table of `n` entries takes. */
  function TableBytes(t: FatType, n: nat): nat {
    match t case FAT12 => n * 3 / 2 + n % 2 case FAT16 => n * 2 case FAT32 => n * 4
  }

  /** Sectors taken by all copies of the table. */
  function FatArea(nFats: nat, fsize: nat): nat {
    if nFats == 2 then fsize + fsize else fsize
  }

  /** A power of two up to 128. */
  predicate IsClusterSize(c: nat) {
    c == 1 || (0 < c <= 128 && c % 2 == 0 && IsClusterSize(c / 2))
  }

  /** The sectors of `n` clusters. */
  function DataArea(csize: nat, n: nat): nat {
    if n == 0 then 0 else DataArea(csize, n - 1) + csize
  }

  lemma {:induction false} DataAreaIs(csize: nat, n: nat)
    ensures DataArea(csize, n) == csize * n
  {
    if n > 0 {
      DataAreaIs(csize, n - 1);
    }
  }

  /** The layout facts the volume code relies on: regions in order, table large enough, data on the drive. */
  predicate ValidGeometry(g: Geometry) {
    && 1 <= g.nFats <= 2
    && 1 <= g.csize <= 128 && IsClusterSize(g.csize)
    && g.nRootdir % 16 == 0
    && 3 <= g.nFatent <= MaxClusters(g.fatType) + 2
    && TableBytes(g.fatType, g.nFatent) <= 512 * g.fsize
    && g.volbase + 1 <= g.fatbase
    && (g.fatType == FAT32 ==> g.volbase + 2 <= g.fatbase && g.nRootdir == 0 && 2 <= g.dirbase < g.nFatent)
    && (g.fatType != FAT32 ==> g.dirbase == g.fatbase + FatArea(g.nFats, g.fsize) && g.nRootdir != 0)
    && g.database == g.fatbase + FatArea(g.nFats, g.fsize) + g.nRootdir / 16
    && g.database < g.database + DataArea(g.csize, g.nFatent - 2) <= g.sectors < 0x1_0000_0000
  }

  type VolumeGeometry = g: Geometry | ValidGeometry(g)
    witness Geometry(FAT12, 1, 1, 16, 3, 1, 0, 1, 2, 3, 4)

  function ByteOffset(t: FatType, c: nat): nat {
    match t case FAT12 => c + c / 2 case FAT16 => 2 * c case FAT32 => 4 * c
  }

  function ByteWidth(t: FatType): nat {
    if t == FAT32 then 4 else 2
  }

  /** Entry `c` lies within a table of `n` bytes. */
  predicate Fits(n: nat, ty: FatType, c: nat) {
    ByteOffset(ty, c) + ByteWidth(ty) <= n
  }

  /** A FAT12 entry from its two bytes. */
  function Pack12(c: nat, b0: int, b1: int): (r: nat)
    requires 0 <= b0 < 256 && 0 <= b1 < 256
    ensures r == if c % 2 == 1 then b0 / 16 + 16 * b1 else b0 + 256 * (b1 % 16)
  {
    Split16(b0 / 16 + 16 * b1, b0 % 16);
    Split4096(b1 / 16, b0 + 256 * (b1 % 16));
    if c % 2 == 1 then (b0 + 256 * b1) / 16 else (b0 + 256 * b1) % 4096
  }

  /** Entry `c` of the table in bytes `t`: 12, 16 or 28 bits. */
  function Entry(t: seq<byte>, ty: FatType, c: nat): (r: nat)
    requires Fits(|t|, ty, c)
  {
    match ty
    case FAT12 => Pack12(c, t[c + c / 2], t[c + c / 2 + 1])
    case FAT16 => LdWord(t, 2 * c)
    case FAT32 => LdDword(t, 4 * c) % 0x1000_0000
  }

  /** The first `n` entries of the table. */
  function Entries(t: seq<byte>, ty: FatType, n: nat): (f: seq<nat>)
    requires TableBytes(ty, n) <= |t|
    ensures |f| == n
  {
    if n == 0 then []
    else
      TableFits(ty, n, n - 1);
      Entries(t, ty, n - 1) + [Entry(t, ty, n - 1)]
  }

  lemma TableFits(ty: FatType, n: nat, c: nat)
    requires c < n
    ensures ByteOffset(ty, c) + ByteWidth(ty) <= TableBytes(ty, n)
    ensures TableBytes(ty, n - 1) <= TableBytes(ty, n)
  {
    if ty == FAT12 {
      TableBytes12(n);
      TableBytes12(n - 1);
    }
  }

  lemma TableBytes12(n: nat)
    ensures TableBytes(FAT12, n) == n + n / 2 + n % 2
  {
    Half(3 * (n / 2) + n % 2, n % 2);
    assert n * 3 == 2 * (3 * (n / 2) + n % 2) + n % 2;
  }

  lemma Half(q: int, r: int)
    requires 0 <= r < 2
    ensures (2 * q + r) / 2 == q
  {
  }

  /** The array holds what lies in the bytes. */
  lemma {:induction false} EntriesAt(t: seq<byte>, ty: FatType, n: nat, c: nat)
    requires c < n && TableBytes(ty, n) <= |t|
    ensures Fits(|t|, ty, c) && Entries(t, ty, n)[c] == Entry(t, ty, c)
  {
    TableFits(ty, n, c);
    if c < n - 1 {
      TableFits(ty, n, n - 1);
      EntriesAt(t, ty, n - 1, c);
    }
  }

  /** The width mask of an entry. */
  function Mask(t: FatType, v: nat): nat {
    match t case FAT12 => v % 4096 case FAT16 => v % 65536 case FAT32 => v % 0x1000_0000
  }

  /** The bits of a FAT12 entry held in its first byte replaced, those in the second kept. */
  function HalfPut(c: nat, old_: nat, v: nat): nat {
    if c % 2 == 1 then v % 16 + old_ / 16 * 16 else v % 256 + old_ / 256 * 256
  }

  function FirstByte12(c: nat, b: byte, v: nat): (r: byte) {
    if c % 2 == 1 then b % 16 + v % 16 * 16 else v % 256
  }

  function SecondByte12(c: nat, b: byte, v: nat): (r: byte) {
    if c % 2 == 1 then v / 16 % 256 else b / 16 * 16 + v / 256 % 16
  }

  /** Neighbouring FAT12 entries share a byte only from an even cluster to the next odd one. */
  lemma Offsets12(c: nat, e: nat)
    requires e < c
    ensures ByteOffset(FAT12, e) + 1 <= ByteOffset(FAT12, c)
    ensures ByteOffset(FAT12, e) + 1 == ByteOffset(FAT12, c) ==> e % 2 == 0 && c % 2 == 1
  {
  }

  lemma Split16(q: int, r: int)
    requires 0 <= r < 16
    ensures (r + 16 * q) / 16 == q && (r + 16 * q) % 16 == r
  {
  }

  lemma Split4096(q: int, r: int)
    requires 0 <= r < 4096
    ensures (r + 4096 * q) % 4096 == r
  {
  }

  lemma Split256(q: int, r: int)
    requires 0 <= r < 256
    ensures (r + 256 * q) / 256 == q && (r + 256 * q) % 256 == r
  {
  }

  lemma Mod4096(v: nat)
    ensures v % 4096 / 16 == v / 16 % 256 && v % 4096 % 16 == v % 16
    ensures v % 4096 / 256 == v / 256 % 16 && v % 4096 % 256 == v % 256
  {
    var q := v / 4096;
    assert v == 4096 * q + v % 4096;
    Mod4096Low(q, v % 4096);
  }

  lemma Mod4096Low(q: int, w: nat)
    requires w < 4096
    ensures (4096 * q + w) / 16 % 256 == w / 16 && (4096 * q + w) % 16 == w % 16
    ensures (4096 * q + w) / 256 % 16 == w / 256 && (4096 * q + w) % 256 == w % 256
  {
    Split16(256 * q + w / 16, w % 16);
    Split256(16 * q + w / 256, w % 256);
    Split256(q, w / 16);
    Split16(q, w / 256);
  }

  lemma HalfPutParts(c: nat, b0: byte, b1: byte, v: nat)
    ensures Pack12(c, FirstByte12(c, b0, v), b1) == HalfPut(c, Pack12(c, b0, b1), v)
    ensures Pack12(c, b0, SecondByte12(c, b1, v)) == HalfPut(c, v % 4096, Pack12(c, b0, b1))
  {
    Mod4096(v);
    if c % 2 == 1 {
      Split16(v % 16, b0 % 16);
      Split16(b1, b0 / 16);
    } else {
      Split256(b1 % 16, b0);
      Split16(b1 / 16, v / 256 % 16);
    }
  }

  lemma SharedNibbles(c: nat, b: byte, v: nat)
    ensures c % 2 == 1 ==> FirstByte12(c, b, v) % 16 == b % 16
    ensures c % 2 == 0 ==> SecondByte12(c, b, v) / 16 == b / 16
  {
  }

  lemma {:induction false} HalfPutTwice(c: nat, old_: nat, v: nat)
    ensures HalfPut(c, v % 4096, HalfPut(c, old_, v)) == v % 4096
  {
    Mod4096(v);
    if c % 2 == 1 {
      Split16(old_ / 16, v % 16);
    } else {
      Split256(old_ / 256, v % 256);
    }
  }

  /** The word stored back into a FAT32 slot: 28 new bits under the four reserved ones. */
  function Merge32(raw: nat, v: nat): (r: nat)
    requires raw < 0x1_0000_0000
    ensures r < 0x1_0000_0000
    ensures r % 0x1000_0000 == v % 0x1000_0000
    ensures r / 0x1000_0000 == raw / 0x1000_0000
  {
    v % 0x1000_0000 + raw / 0x1000_0000 * 0x1000_0000
  }

  /** Bytes `t` with entry `c` set to `v` the way put_fat stores it. */
  function PutBytes(t: seq<byte>, ty: FatType, c: nat, v: nat): (r: seq<byte>)
    requires Fits(|t|, ty, c)
    ensures |r| == |t|
  {
    match ty
    case FAT12 => PutSecond(PutFirst(t, c, v), c, v)
    case FAT16 => StWord(t, 2 * c, v)
    case FAT32 => LdDwordBound(t, 4 * c); StDword(t, 4 * c, Merge32(LdDword(t, 4 * c), v))
  }

  function PutFirst(t: seq<byte>, c: nat, v: nat): (r: seq<byte>)
    requires Fits(|t|, FAT12, c)
    ensures |r| == |t|
  {
    var o := c + c / 2;
    t[o := FirstByte12(c, t[o], v)]
  }

  function PutSecond(t: seq<byte>, c: nat, v: nat): (r: seq<byte>)
    requires Fits(|t|, FAT12, c)
    ensures |r| == |t|
  {
    var o := c + c / 2 + 1;
    t[o := SecondByte12(c, t[o], v)]
  }

  lemma LdDwordBound(p: seq<byte>, i: nat)
    requires i + 4 <= |p|
    ensures LdDword(p, i) < 0x1_0000_0000
  {
  }

  /** Storing the first byte of a FAT12 entry half-changes that entry and no other. */
  lemma PutFirst12(t: seq<byte>, c: nat, v: nat, e: nat)
    requires Fits(|t|, FAT12, c) && Fits(|t|, FAT12, e)
    ensures Entry(PutFirst(t, c, v), FAT12, e) ==
              if e == c then HalfPut(c, Entry(t, FAT12, c), v) else Entry(t, FAT12, e)
  {
    var o := c + c / 2;
    if e < c {
      Offsets12(c, e);
      SharedNibbles(c, t[o], v);
    } else if c < e {
      Offsets12(e, c);
    } else {
      HalfPutParts(c, t[o], t[o + 1], v);
    }
  }

  /** Storing the second byte completes it. */
  lemma PutSecond12(t: seq<byte>, c: nat, v: nat, e: nat)
    requires Fits(|t|, FAT12, c) && Fits(|t|, FAT12, e)
    ensures Entry(PutSecond(t, c, v), FAT12, e) ==
              if e == c then HalfPut(c, v % 4096, Entry(t, FAT12, c)) else Entry(t, FAT12, e)
  {
    var o := c + c / 2;
    if e < c {
      Offsets12(c, e);
    } else if c < e {
      Offsets12(e, c);
      SharedNibbles(c, t[o + 1], v);
    } else {
      HalfPutParts(c, t[o], t[o + 1], v);
    }
  }

  lemma PutEntry12(t: seq<byte>, c: nat, v: nat, e: nat)
    requires Fits(|t|, FAT12, c) && Fits(|t|, FAT12, e)
    ensures Entry(PutSecond(PutFirst(t, c, v), c, v), FAT12, e) == if e == c then v % 4096 else Entry(t, FAT12, e)
  {
    PutFirst12(t, c, v, e);
    PutSecond12(PutFirst(t, c, v), c, v, e);
    if e == c {
      HalfPutTwice(c, Entry(t, FAT12, c), v);
    }
  }

  lemma PutEntry16(t: seq<byte>, c: nat, v: nat, e: nat)
    requires Fits(|t|, FAT16, c) && Fits(|t|, FAT16, e)
    ensures LdWord(StWord(t, 2 * c, v), 2 * e) == if e == c then v % 65536 else LdWord(t, 2 * e)
  {
  }

  lemma PutEntry32(t: seq<byte>, c: nat, v: nat, e: nat)
    requires Fits(|t|, FAT32, c) && Fits(|t|, FAT32, e) && LdDword(t, 4 * c) < 0x1_0000_0000
    ensures var r := LdDword(StDword(t, 4 * c, Merge32(LdDword(t, 4 * c), v)), 4 * e);
            && r % 0x1000_0000 == (if e == c then v else LdDword(t, 4 * e)) % 0x1000_0000
            && r / 0x1000_0000 == LdDword(t, 4 * e) / 0x1000_0000
  {
    var x := Merge32(LdDword(t, 4 * c), v);
    if e != c {
      OtherDword(t, 4 * c, x, 4 * e);
    } else {
      assert LdDword(StDword(t, 4 * c, x), 4 * c) == x;
    }
  }

  /** A put is read back masked, and no other entry changes. */
  lemma PutEntry(t: seq<byte>, ty: FatType, c: nat, v: nat, e: nat)
    requires Fits(|t|, ty, c) && Fits(|t|, ty, e)
    ensures Entry(PutBytes(t, ty, c, v), ty, e) == if e == c then Mask(ty, v) else Entry(t, ty, e)
  {
    match ty
    case FAT12 => PutEntry12(t, c, v, e);
    case FAT16 => PutEntry16(t, c, v, e);
    case FAT32 => LdDwordBound(t, 4 * c); PutEntry32(t, c, v, e);
  }

  /** The four bits of a FAT32 slot that are not part of the entry. */
  function SpareBits(t: seq<byte>, e: nat): nat
    requires 4 * e + 4 <= |t|
  {
    LdDword(t, 4 * e) / 0x1000_0000
  }

  /** They survive every put. */
  lemma ReservedBits(t: seq<byte>, c: nat, v: nat, e: nat)
    requires Fits(|t|, FAT32, c) && Fits(|t|, FAT32, e)
    ensures SpareBits(PutBytes(t, FAT32, c, v), e) == SpareBits(t, e)
  {
    LdDwordBound(t, 4 * c);
    PutEntry32(t, c, v, e);
  }

  lemma OtherDword(p: seq<byte>, o: nat, v: nat, q: nat)
    requires o + 4 <= |p| && q + 4 <= |p|
    requires q + 4 <= o || o + 4 <= q
    ensures LdDword(StDword(p, o, v), q) == LdDword(p, q)
  {
  }

  /** On the whole array: put_fat assigns one element. */
  lemma PutEntries(t: seq<byte>, ty: FatType, n: nat, c: nat, v: nat)
    requires c < n && TableBytes(ty, n) <= |t| && Fits(|t|, ty, c)
    ensures Entries(PutBytes(t, ty, c, v), ty, n) == Entries(t, ty, n)[c := Mask(ty, v)]
  {
    var t' := PutBytes(t, ty, c, v);
    forall e | 0 <= e < n ensures Entries(t', ty, n)[e] == Entries(t, ty, n)[c := Mask(ty, v)][e] {
      EntriesAt(t, ty, n, e);
      EntriesAt(t', ty, n, e);
      PutEntry(t, ty, c, v, e);
    }
  }

  /** And a put stopped after its first byte leaves that element half-changed. */
  lemma HalfPutEntries(t: seq<byte>, n: nat, c: nat, v: nat)
    requires c < n && TableBytes(FAT12, n) <= |t| && Fits(|t|, FAT12, c)
    ensures var f := Entries(t, FAT12, n); Entries(PutFirst(t, c, v), FAT12, n) == f[c := HalfPut(c, f[c], v)]
  {
    var t', f := PutFirst(t, c, v), Entries(t, FAT12, n);
    EntriesAt(t, FAT12, n, c);
    forall e | 0 <= e < n ensures Entries(t', FAT12, n)[e] == f[c := HalfPut(c, f[c], v)][e] {
      EntriesAt(t, FAT12, n, e);
      EntriesAt(t', FAT12, n, e);
      PutFirst12(t, c, v, e);
    }
  }

  // The source addresses a table byte through the one sector in the window.

  /** `w` is sector `k` of `t`. */
  predicate IsSlice(t: seq<byte>, k: nat, w: seq<byte>) {
    512 * k + 512 <= |t| && |w| == 512 && t[512 * k..512 * k + 512] == w
  }

  function Splice(t: seq<byte>, k: nat, w: seq<byte>): (r: seq<byte>)
    requires 512 * k + 512 <= |t| && |w| == 512
    ensures |r| == |t|
  {
    t[..512 * k] + w + t[512 * k + 512..]
  }

  lemma SliceByte(t: seq<byte>, k: nat, w: seq<byte>, o: nat)
    requires IsSlice(t, k, w) && o < 512
    ensures t[512 * k + o] == w[o]
  {
    assert t[512 * k..512 * k + 512][o] == t[512 * k + o];
  }

  /** Storing into the window and splicing it back stores into the table. */
  lemma SpliceByte(t: seq<byte>, k: nat, w: seq<byte>, o: nat, b: byte)
    requires IsSlice(t, k, w) && o < 512
    ensures Splice(t, k, w[o := b]) == t[512 * k + o := b]
  {
    var r := t[512 * k + o := b];
    assert r[..512 * k] == t[..512 * k] && r[512 * k + 512..] == t[512 * k + 512..];
    assert r[512 * k..512 * k + 512] == w[o := b];
    assert r == r[..512 * k] + r[512 * k..512 * k + 512] + r[512 * k + 512..];
  }

  lemma SpliceWord(t: seq<byte>, k: nat, w: seq<byte>, o: nat, v: nat)
    requires IsSlice(t, k, w) && o + 2 <= 512
    ensures LdWord(t, 512 * k + o) == LdWord(w, o)
    ensures Splice(t, k, StWord(w, o, v)) == StWord(t, 512 * k + o, v)
  {
    SliceByte(t, k, w, o);
    SliceByte(t, k, w, o + 1);
    SpliceByte(t, k, w, o, v % 256);
    var t1 := t[512 * k + o := v % 256];
    assert t1[512 * k..512 * k + 512] == w[o := v % 256];
    SpliceByte(t1, k, w[o := v % 256], o + 1, v / 256 % 256);
    assert Splice(t1, k, StWord(w, o, v)) == Splice(t, k, StWord(w, o, v));
  }

  lemma SpliceDword(t: seq<byte>, k: nat, w: seq<byte>, o: nat, v: nat)
    requires IsSlice(t, k, w) && o + 4 <= 512
    ensures LdDword(t, 512 * k + o) == LdDword(w, o)
    ensures Splice(t, k, StDword(w, o, v)) == StDword(t, 512 * k + o, v)
  {
    SpliceWord(t, k, w, o, v);
    SpliceWord(t, k, w, o + 2, 0);
    var t1, w1 := StWord(t, 512 * k + o, v), StWord(w, o, v);
    assert t1[512 * k..512 * k + 512] == w1;
    SpliceWord(t1, k, w1, o + 2, v / 65536);
    assert Splice(t1, k, StDword(w, o, v)) == Splice(t, k, StDword(w, o, v));
  }

  lemma Index16(c: nat)
    ensures 512 * (c / 256) + c * 2 % 512 == 2 * c && c * 2 % 512 <= 510
  {
  }

  lemma Index32(c: nat)
    ensures 512 * (c / 128) + c * 4 % 512 == 4 * c && c * 4 % 512 <= 508
  {
  }

  /** The sector of the table that byte `i` is in. */
  function SectorOf(i: nat): nat {
    if i < 512 then 0 else 1 + SectorOf(i - 512)
  }

  lemma {:induction false} IndexByte(i: nat)
    ensures SectorOf(i) == i / 512 && 512 * SectorOf(i) + i % 512 == i && 0 <= i % 512 < 512
  {
    if i >= 512 {
      IndexByte(i - 512);
    }
  }

  /** The source's addressing of a FAT16 entry through sector `w` of the window. */
  lemma Window16(t: seq<byte>, n: nat, c: nat, w: seq<byte>, v: nat)
    requires c < n && TableBytes(FAT16, n) <= |t| && IsSlice(t, c / 256, w)
    ensures c * 2 % 512 + 2 <= 512 && Fits(|t|, FAT16, c)
    ensures LdWord(w, c * 2 % 512) == Entry(t, FAT16, c)
    ensures Splice(t, c / 256, StWord(w, c * 2 % 512, v)) == PutBytes(t, FAT16, c, v)
  {
    Index16(c);
    EntriesAt(t, FAT16, n, c);
    SpliceWord(t, c / 256, w, c * 2 % 512, v);
  }

  lemma Window32(t: seq<byte>, n: nat, c: nat, w: seq<byte>, v: nat)
    requires c < n && TableBytes(FAT32, n) <= |t| && IsSlice(t, c / 128, w)
    ensures c * 4 % 512 + 4 <= 512 && Fits(|t|, FAT32, c) && LdDword(w, c * 4 % 512) < 0x1_0000_0000
    ensures LdDword(w, c * 4 % 512) % 0x1000_0000 == Entry(t, FAT32, c)
    ensures Splice(t, c / 128, StDword(w, c * 4 % 512, Merge32(LdDword(w, c * 4 % 512), v))) == PutBytes(t, FAT32, c, v)
  {
    var o := c * 4 % 512;
    Index32(c);
    EntriesAt(t, FAT32, n, c);
    LdDwordBound(w, o);
    SpliceDword(t, c / 128, w, o, Merge32(LdDword(w, o), v));
  }

  lemma InTable16(n: nat, c: nat, fsize: nat)
    requires c < n && TableBytes(FAT16, n) <= 512 * fsize
    ensures c / 256 < fsize
  {
  }

  lemma InTable32(n: nat, c: nat, fsize: nat)
    requires c < n && TableBytes(FAT32, n) <= 512 * fsize
    ensures c / 128 < fsize
  {
  }
}
