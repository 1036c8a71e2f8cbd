/** Files as byte sequences: writing at a position, past the end if need be. */
module StdioBytes {
  import FatBytes

  type byte = FatBytes.byte

  function Larger(a: nat, b: nat): nat {
    if a < b then b else a
  }

  /** What a file holds after `d` is written at position p: a gap is filled with zeros. The countdown only keeps
      proofs from looking inside where PutAtIs is not called. */
  function PutAt(u: seq<byte>, p: nat, d: seq<byte>): (r: seq<byte>)
    ensures |r| == if d == [] then |u| else Larger(|u|, p + |d|)
  {
    PutAfter(u, p, d, |d|)
  }

  function PutAfter(u: seq<byte>, p: nat, d: seq<byte>, countdown: nat): (r: seq<byte>)
    ensures |r| == if d == [] then |u| else Larger(|u|, p + |d|)
    decreases countdown
  {
    if countdown > 0 then PutAfter(u, p, d, countdown - 1)
    else if d == [] then u
    else seq(Larger(|u|, p + |d|), i requires 0 <= i =>
         if p <= i < p + |d| then d[i - p] else if i < |u| then u[i] else 0)
  }

  lemma {:induction false} PutAfterAt(u: seq<byte>, p: nat, d: seq<byte>, countdown: nat, i: nat)
    requires i < |PutAt(u, p, d)|
    ensures PutAfter(u, p, d, countdown)[i] == if p <= i < p + |d| then d[i - p] else if i < |u| then u[i] else 0
    decreases countdown
  {
    if countdown > 0 {
      PutAfterAt(u, p, d, countdown - 1, i);
    }
  }

  lemma PutAtIs(u: seq<byte>, p: nat, d: seq<byte>, i: nat)
    requires i < |PutAt(u, p, d)|
    ensures PutAt(u, p, d)[i] == if p <= i < p + |d| then d[i - p] else if i < |u| then u[i] else 0
  {
    PutAfterAt(u, p, d, |d|, i);
  }

  lemma PutNothing(u: seq<byte>, p: nat)
    ensures PutAt(u, p, []) == u
  {
    var r := PutAt(u, p, []);
    forall i | 0 <= i < |u| ensures r[i] == u[i] {
      PutAtIs(u, p, [], i);
    }
  }

  /** Two writes one behind the other are one. */
  lemma PutTwice(u: seq<byte>, p: nat, d: seq<byte>, d': seq<byte>)
    ensures PutAt(PutAt(u, p, d), p + |d|, d') == PutAt(u, p, d + d')
  {
    if d == [] {
      PutNothing(u, p);
      assert d + d' == d';
    } else if d' == [] {
      PutNothing(PutAt(u, p, d), p + |d|);
      assert d + d' == d;
    } else {
      var x, y := PutAt(PutAt(u, p, d), p + |d|, d'), PutAt(u, p, d + d');
      assert |x| == |y|;
      forall i | 0 <= i < |x| ensures x[i] == y[i] {
        PutAtIs(u, p, d + d', i);
        PutAtIs(PutAt(u, p, d), p + |d|, d', i);
        if i < |PutAt(u, p, d)| {
          PutAtIs(u, p, d, i);
        }
      }
    }
  }

  /** What has been written is read back. */
  lemma PutSlice(u: seq<byte>, p: nat, d: seq<byte>, a: nat, b: nat)
    requires a <= b <= |d|
    ensures p + b <= |PutAt(u, p, d)| || d == []
    ensures d != [] ==> PutAt(u, p, d)[p + a..p + b] == d[a..b]
  {
    if d != [] {
      var x, y := PutAt(u, p, d)[p + a..p + b], d[a..b];
      forall i | 0 <= i < b - a ensures x[i] == y[i] {
        PutAtIs(u, p, d, p + a + i);
      }
    }
  }
}
