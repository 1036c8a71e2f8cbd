/** Bytes, sectors and the little-endian accessors of the FAT volume layer. */
module FatBytes {
  type byte = b: int | 0 <= b < 256
  type Sector = s: seq<byte> | |s| == 512 witness seq(512, _ => 0)

  const ZERO_SECTOR: Sector := seq(512, _ => 0)

  function LdWord(p: seq<byte>, i: nat): (r: nat)
    requires i + 2 <= |p|
  {
    (p[i] as int) + 256 * (p[i + 1] as int)
  }

  function LdDword(p: seq<byte>, i: nat): (r: nat)
    requires i + 4 <= |p|
  {
    (p[i] as int) + 256 * (p[i + 1] as int) + 65536 * (p[i + 2] as int) + 16777216 * (p[i + 3] as int)
  }

  function StWord(p: seq<byte>, i: nat, v: nat): (r: seq<byte>)
    requires i + 2 <= |p|
    ensures |r| == |p|
    ensures LdWord(r, i) == v % 65536
    ensures forall j :: 0 <= j < |p| && !(i <= j < i + 2) ==> r[j] == p[j]
  {
    p[i := v % 256][i + 1 := v / 256 % 256]
  }

  function StDword(p: seq<byte>, i: nat, v: nat): (r: seq<byte>)
    requires i + 4 <= |p|
    ensures |r| == |p|
    ensures LdDword(r, i) == v % 0x1_0000_0000
    ensures forall j :: 0 <= j < |p| && !(i <= j < i + 4) ==> r[j] == p[j]
  {
    assert v % 65536 + 65536 * (v / 65536 % 65536) == v % 0x1_0000_0000;
    var lo := StWord(p, i, v);
    var r := StWord(lo, i + 2, v / 65536);
    assert LdDword(r, i) == LdWord(lo, i) + 65536 * LdWord(r, i + 2);
    r
  }

  /** `a - b` as the source's 32-bit unsigned subtraction computes it. */
  function Sub32(a: int, b: int): (r: nat)
  {
    (a - b) % 0x1_0000_0000
  }

  /** Sectors laid end to end. The countdown only keeps proofs from looking inside where FlatIs is not called. */
  function Flat(ss: seq<Sector>): (r: seq<byte>)
    ensures |r| == 512 * |ss|
  {
    FlatAfter(ss, |ss|)
  }

  function FlatAfter(ss: seq<Sector>, countdown: nat): (r: seq<byte>)
    ensures |r| == 512 * |ss|
  {
    if countdown > 0 then FlatAfter(ss, countdown - 1) else Joined(ss)
  }

  function Joined(ss: seq<Sector>): (r: seq<byte>)
    ensures |r| == 512 * |ss|
  {
    if ss == [] then [] else ss[0] + Joined(ss[1..])
  }

  lemma {:induction false} FlatAfterIs(ss: seq<Sector>, countdown: nat)
    ensures FlatAfter(ss, countdown) == Joined(ss)
    decreases countdown
  {
    if countdown > 0 {
      FlatAfterIs(ss, countdown - 1);
    }
  }

  lemma FlatIs(ss: seq<Sector>)
    ensures Flat(ss) == Joined(ss)
  {
    FlatAfterIs(ss, |ss|);
  }

  lemma {:induction false} JoinedConcat(a: seq<Sector>, b: seq<Sector>)
    ensures Joined(a + b) == Joined(a) + Joined(b)
  {
    if a == [] {
      assert a + b == b;
    } else {
      assert (a + b)[1..] == a[1..] + b;
      JoinedConcat(a[1..], b);
    }
  }

  lemma FlatConcat(a: seq<Sector>, b: seq<Sector>)
    ensures Flat(a + b) == Flat(a) + Flat(b)
  {
    JoinedConcat(a, b);
    FlatIs(a);
    FlatIs(b);
    FlatIs(a + b);
  }

  /** Some other sector. */
  function Unlike(s: Sector): (r: Sector)
    ensures r != s
  {
    var r: Sector := if s[0] == 0 then s[0 := 1] else s[0 := 0];
    assert r[0] != s[0];
    r
  }

  lemma FlatFirst(ss: seq<Sector>)
    requires ss != []
    ensures Flat(ss) == ss[0] + Flat(ss[1..]) && (|ss| == 1 ==> Flat(ss) == ss[0])
  {
    FlatIs(ss);
    FlatIs(ss[1..]);
  }

  /** Sector `k` takes bytes 512k to 512k + 511. */
  lemma {:induction false} FlatSlice(ss: seq<Sector>, k: nat)
    requires k < |ss|
    ensures Flat(ss)[512 * k..512 * k + 512] == ss[k]
  {
    FlatFirst(ss);
    if k > 0 {
      FlatSlice(ss[1..], k - 1);
      DropSlice(ss[0], Flat(ss[1..]), 512 * k - 512, 512 * k);
    }
  }

  lemma DropSlice(x: seq<byte>, y: seq<byte>, i: nat, j: nat)
    requires i <= j <= |y|
    ensures (x + y)[|x| + i..|x| + j] == y[i..j]
  {
  }

  lemma FlatAt(ss: seq<Sector>, k: nat, o: nat)
    requires k < |ss| && o < 512
    ensures Flat(ss)[512 * k + o] == ss[k][o]
  {
    FlatSlice(ss, k);
    assert Flat(ss)[512 * k..512 * k + 512][o] == Flat(ss)[512 * k + o];
  }

  /** Replacing a sector replaces just its bytes. */
  lemma FlatReplace(ss: seq<Sector>, k: nat, s: Sector)
    requires k < |ss|
    ensures Flat(ss[k := s]) == Flat(ss)[..512 * k] + s + Flat(ss)[512 * k + 512..]
  {
    var a, b := ss[..k], ss[k + 1..];
    assert ss == a + [ss[k]] + b && ss[k := s] == a + [s] + b;
    FlatConcat(a + [ss[k]], b);
    FlatConcat(a, [ss[k]]);
    FlatConcat(a + [s], b);
    FlatConcat(a, [s]);
    FlatFirst([s]);
  }
}
