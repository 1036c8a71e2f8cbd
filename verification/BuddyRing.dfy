/** The free lists of the buddy allocator: circular, doubly linked through the headers of the blocks. */
module BuddyRing {

  /** Where a header is: in the allocator's avail array, or at the start of a block. */
  datatype Ptr = Head(order: nat) | Blk(addr: nat)

  datatype Hdr = Hdr(tag: bool, kval: nat, linkf: Ptr, linkb: Ptr)

  /** The headers there are. What lies anywhere else in the arena is not known: it may be a caller's data. */
  type Mem = map<Ptr, Hdr>

  function SetF(mem: Mem, p: Ptr, q: Ptr): Mem
    requires p in mem
  {
    mem[p := mem[p].(linkf := q)]
  }

  function SetB(mem: Mem, p: Ptr, q: Ptr): Mem
    requires p in mem
  {
    mem[p := mem[p].(linkb := q)]
  }

  /** From p the links lead through the blocks of `s`, all available and of order k, to q, and back. */
  predicate Path(mem: Mem, p: Ptr, s: seq<nat>, q: Ptr, k: nat)
    decreases |s|
  {
    && p in mem && q in mem
    && if s == [] then mem[p].linkf == q && mem[q].linkb == p
       else
         var n := Blk(s[0]);
         && n in mem && mem[n].tag && mem[n].kval == k
         && mem[p].linkf == n && mem[n].linkb == p && Path(mem, n, s[1..], q, k)
  }

  predicate Ring(mem: Mem, k: nat, s: seq<nat>) {
    Path(mem, Head(k), s, Head(k), k)
  }

  predicate Distinct(s: seq<nat>) {
    s == [] || (s[0] !in s[1..] && Distinct(s[1..]))
  }

  lemma {:induction false} PathHeader(mem: Mem, p: Ptr, s: seq<nat>, q: Ptr, k: nat, i: nat)
    requires Path(mem, p, s, q, k) && i < |s|
    ensures Blk(s[i]) in mem && mem[Blk(s[i])].tag && mem[Blk(s[i])].kval == k
    decreases |s|
  {
    if i > 0 {
      PathHeader(mem, Blk(s[0]), s[1..], q, k, i - 1);
    }
  }

  lemma MemberHeader(mem: Mem, k: nat, s: seq<nat>, x: nat)
    requires Ring(mem, k, s) && x in s
    ensures Blk(x) in mem && mem[Blk(x)].tag && mem[Blk(x)].kval == k
  {
    var i :| 0 <= i < |s| && s[i] == x;
    PathHeader(mem, Head(k), s, Head(k), k, i);
  }

  /** A path is there as long as what it goes through stays. */
  lemma {:induction false} PathKept(mem: Mem, mem': Mem, p: Ptr, s: seq<nat>, q: Ptr, k: nat)
    requires Path(mem, p, s, q, k)
    requires p in mem' && q in mem' && mem'[p].linkf == mem[p].linkf && mem'[q].linkb == mem[q].linkb
    requires forall x :: x in s ==> Blk(x) in mem && Blk(x) in mem' && mem'[Blk(x)] == mem[Blk(x)]
    ensures Path(mem', p, s, q, k)
    decreases |s|
  {
    if s != [] {
      assert s[0] in s;
      PathKept(mem, mem', Blk(s[0]), s[1..], q, k);
    }
  }

  /** The ring of another order is not affected by what happens to blocks that are not available at that order. */
  lemma RingKept(mem: Mem, mem': Mem, k: nat, s: seq<nat>)
    requires Ring(mem, k, s) && Head(k) in mem' && mem'[Head(k)] == mem[Head(k)]
    requires forall x ::
               Blk(x) in mem && mem[Blk(x)].tag && mem[Blk(x)].kval == k ==>
                 Blk(x) in mem' && mem'[Blk(x)] == mem[Blk(x)]
    ensures Ring(mem', k, s)
  {
    forall x | x in s ensures Blk(x) in mem && Blk(x) in mem' && mem'[Blk(x)] == mem[Blk(x)] {
      MemberHeader(mem, k, s, x);
    }
    PathKept(mem, mem', Head(k), s, Head(k), k);
  }

  /** The block n taken out of its list. */
  function Unlinked(mem: Mem, n: Ptr): Mem
    requires n in mem && mem[n].linkb in mem && mem[n].linkf in mem
  {
    SetB(SetF(mem, mem[n].linkb, mem[n].linkf), mem[n].linkf, mem[n].linkb)
  }

  lemma UnlinkFirst(mem: Mem, p: Ptr, s: seq<nat>, q: Ptr, k: nat)
    requires Path(mem, p, s, q, k) && s != [] && Distinct(s)
    requires q.Head? && (p.Blk? ==> p.addr !in s)
    ensures && mem[Blk(s[0])].linkb == p && mem[Blk(s[0])].linkf == (if |s| == 1 then q else Blk(s[1]))
            && mem[Blk(s[0])].linkf in mem
    ensures Path(Unlinked(mem, Blk(s[0])), p, s[1..], q, k)
  {
    var mem' := Unlinked(mem, Blk(s[0]));
    if |s| > 1 {
      var t, u := s[1..], s[2..];
      assert t[0] == s[1] && t[1..] == u && s[1] in t && s[1] in s;
      forall x | x in u ensures Blk(x) in mem && Blk(x) in mem' && mem'[Blk(x)] == mem[Blk(x)] {
        assert x in t && x in s;
        var i :| 0 <= i < |u| && u[i] == x;
        PathHeader(mem, Blk(s[1]), u, q, k, i);
      }
      PathKept(mem, mem', Blk(s[1]), u, q, k);
    }
  }

  lemma {:induction false} UnlinkPath(mem: Mem, p: Ptr, s: seq<nat>, q: Ptr, k: nat, i: nat)
    requires Path(mem, p, s, q, k) && i < |s| && Distinct(s)
    requires q.Head? && (p.Blk? ==> p.addr !in s)
    ensures Blk(s[i]) in mem && mem[Blk(s[i])].linkb in mem && mem[Blk(s[i])].linkf in mem
    ensures && mem[Blk(s[i])].linkb == (if i == 0 then p else Blk(s[i - 1]))
            && mem[Blk(s[i])].linkf == (if i == |s| - 1 then q else Blk(s[i + 1]))
    ensures Path(Unlinked(mem, Blk(s[i])), p, s[..i] + s[i + 1..], q, k)
    decreases |s|
  {
    if i == 0 {
      assert s[..0] + s[1..] == s[1..];
      UnlinkFirst(mem, p, s, q, k);
    } else {
      var n, t := Blk(s[0]), s[1..];
      UnlinkPath(mem, n, t, q, k, i - 1);
      assert t[i - 1] == s[i] && s[i] in t && s[i] in s;
      assert i > 1 ==> t[i - 2] == s[i - 1] && s[i - 1] in t;
      assert i < |s| - 1 ==> t[i] == s[i + 1] && s[i + 1] in t;
      UnlinkNext(mem, p, s, q, k, i);
    }
  }

  lemma UnlinkNext(mem: Mem, p: Ptr, s: seq<nat>, q: Ptr, k: nat, i: nat)
    requires Path(mem, p, s, q, k) && 0 < i < |s| && Distinct(s) && q.Head? && (p.Blk? ==> p.addr !in s)
    requires Blk(s[i]) in mem && mem[Blk(s[i])].linkb in mem && mem[Blk(s[i])].linkf in mem
    requires && mem[Blk(s[i])].linkb == Blk(s[i - 1])
             && mem[Blk(s[i])].linkf == (if i == |s| - 1 then q else Blk(s[i + 1]))
    requires Path(Unlinked(mem, Blk(s[i])), Blk(s[0]), s[1..][..i - 1] + s[1..][i..], q, k)
    ensures Path(Unlinked(mem, Blk(s[i])), p, s[..i] + s[i + 1..], q, k)
  {
    var r := s[..i] + s[i + 1..];
    assert r[1..] == s[1..][..i - 1] + s[1..][i..] && r[0] == s[0];
    assert s[i] in s && s[i - 1] in s && (i < |s| - 1 ==> s[i + 1] in s);
    assert i < |s| - 1 ==> s[i + 1] in s[1..] by {
      assert i < |s| - 1 ==> s[1..][i] == s[i + 1];
    }
  }

  lemma {:induction false} DistinctAfter(s: seq<nat>, i: nat)
    requires Distinct(s) && i < |s|
    ensures Distinct(s[..i] + s[i + 1..]) && forall x :: x in s[..i] + s[i + 1..] <==> x in s && x != s[i]
    decreases |s|
  {
    var r := s[..i] + s[i + 1..];
    if i == 0 {
      assert r == s[1..];
    } else {
      DistinctAfter(s[1..], i - 1);
      assert r[1..] == s[1..][..i - 1] + s[1..][i..];
      assert s[1..][i - 1] == s[i];
      assert r == [s[0]] + r[1..] && s == [s[0]] + s[1..];
    }
  }

  /** The block x, of order k, put at the front of its list. */
  function Pushed(mem: Mem, k: nat, x: nat): Mem
    requires Head(k) in mem && Blk(x) in mem && mem[Head(k)].linkf in mem
  {
    var first := mem[Head(k)].linkf;
    var m1 := mem[Blk(x) := mem[Blk(x)].(tag := true, linkf := first)];
    SetF(SetB(SetB(m1, first, Blk(x)), Blk(x), Head(k)), Head(k), Blk(x))
  }

  lemma PushRing(mem: Mem, k: nat, s: seq<nat>, x: nat)
    requires Ring(mem, k, s) && Distinct(s) && x !in s && Blk(x) in mem && mem[Blk(x)].kval == k
    ensures mem[Head(k)].linkf in mem && Ring(Pushed(mem, k, x), k, [x] + s)
    ensures mem[Head(k)].linkf == if s == [] then Head(k) else Blk(s[0])
  {
    var mem', t := Pushed(mem, k, x), [x] + s;
    assert t[1..] == s;
    if s != [] {
      assert s[0] in s;
      forall y | y in s[1..] ensures y != x && Blk(y) in mem {
        assert y in s;
        MemberHeader(mem, k, s, y);
      }
      PathKept(mem, mem', Blk(s[0]), s[1..], Head(k), k);
    }
  }
}
