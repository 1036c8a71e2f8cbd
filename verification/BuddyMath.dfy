/** Powers of two and bit operations on natural numbers, as the buddy allocator computes with them. */
module BuddyMath {

  function Pow(n: nat): (r: nat)
    ensures r > 0
  {
    if n == 0 then 1 else 2 * Pow(n - 1)
  }

  lemma {:induction false} PowMono(i: nat, j: nat)
    requires i <= j
    ensures Pow(i) <= Pow(j) && (i < j ==> 2 * Pow(i) <= Pow(j))
    decreases j
  {
    if i < j {
      PowMono(i, j - 1);
    }
  }

  /** v >> n. */
  function Shr(v: nat, n: nat): nat {
    if n == 0 then v else Shr(v / 2, n - 1)
  }

  /** a | b. */
  function Or(a: nat, b: nat): nat {
    if a == 0 && b == 0 then 0 else 2 * Or(a / 2, b / 2) + if a % 2 == 1 || b % 2 == 1 then 1 else 0
  }

  /** x ^ (1 << k). */
  function FlipBit(x: nat, k: nat): nat {
    if k == 0 then (if x % 2 == 0 then x + 1 else x - 1) else 2 * FlipBit(x / 2, k - 1) + x % 2
  }

  /** The number of binary digits. */
  function Bits(v: nat): nat {
    if v == 0 then 0 else 1 + Bits(v / 2)
  }

  /** k binary digits, all of them 1. */
  function Ones(k: nat): nat {
    if k == 0 then 0 else 2 * Ones(k - 1) + 1
  }

  lemma {:induction false} OnesPow(k: nat)
    ensures Ones(k) + 1 == Pow(k)
  {
    if k > 0 {
      OnesPow(k - 1);
    }
  }

  lemma {:induction false} BitsBound(v: nat)
    ensures v < Pow(Bits(v)) && (v > 0 ==> Pow(Bits(v) - 1) <= v)
  {
    if v > 1 {
      BitsBound(v / 2);
    }
  }

  lemma {:induction false} ShrTwice(v: nat, i: nat, j: nat)
    ensures Shr(Shr(v, i), j) == Shr(v, i + j)
    decreases i
  {
    if i > 0 {
      ShrTwice(v / 2, i - 1, j);
    }
  }

  lemma {:induction false} ShrOr(a: nat, b: nat, j: nat)
    ensures Shr(Or(a, b), j) == Or(Shr(a, j), Shr(b, j))
    decreases j
  {
    if j > 0 {
      ShrOr(a / 2, b / 2, j - 1);
      assert Or(a, b) / 2 == Or(a / 2, b / 2);
    }
  }

  lemma {:induction false} ShrBits(v: nat, j: nat)
    ensures Bits(Shr(v, j)) == if j <= Bits(v) then Bits(v) - j else 0
    decreases j
  {
    if j > 0 {
      ShrBits(v / 2, j - 1);
    }
  }

  lemma {:induction false} OrBits(a: nat, b: nat)
    requires Bits(b) <= Bits(a)
    ensures Bits(Or(a, b)) == Bits(a)
    decreases a
  {
    if a > 0 {
      OrBits(a / 2, b / 2);
      assert Or(a, b) / 2 == Or(a / 2, b / 2);
    }
  }

  lemma {:induction false} ShrOnes(k: nat, j: nat)
    requires j <= k
    ensures Shr(Ones(k), j) == Ones(k - j)
    decreases j
  {
    if j > 0 {
      assert Ones(k) / 2 == Ones(k - 1);
      ShrOnes(k - 1, j - 1);
    }
  }

  lemma {:induction false} OnesAbsorb(k: nat, y: nat)
    requires Bits(y) <= k
    ensures Or(Ones(k), y) == Ones(k)
    decreases k
  {
    if k > 0 {
      assert Ones(k) / 2 == Ones(k - 1);
      OnesAbsorb(k - 1, y / 2);
    }
  }

  /** Ones above p digits, or'ed with p ones. */
  lemma {:induction false} OnesJoin(x: nat, p: nat, k: nat)
    requires Shr(x, p) == Ones(k)
    ensures Or(x, Ones(p)) == Ones(k + p)
    decreases p
  {
    if p > 0 {
      assert Ones(p) / 2 == Ones(p - 1);
      OnesJoin(x / 2, p - 1, k);
    } else {
      OnesAbsorb(k, 0);
      BitsOnes(k);
    }
  }

  lemma {:induction false} BitsOnes(k: nat)
    ensures Bits(Ones(k)) == k
  {
    if k > 0 {
      assert Ones(k) / 2 == Ones(k - 1);
      BitsOnes(k - 1);
    }
  }

  function Least(a: nat, b: nat): nat {
    if a < b then a else b
  }

  /** The first k digits are ones, or all of them if there are no more. */
  predicate TopOnes(v: nat, k: nat) {
    TopOnesAfter(v, k, Bits(v))
  }

  predicate TopOnesAfter(v: nat, k: nat, countdown: nat) {
    if countdown > 0 then TopOnesAfter(v, k, countdown - 1)
    else Shr(v, Bits(v) - Least(k, Bits(v))) == Ones(Least(k, Bits(v)))
  }

  lemma {:induction false} TopOnesAfterIs(v: nat, k: nat, countdown: nat)
    ensures TopOnesAfter(v, k, countdown) <==> Shr(v, Bits(v) - Least(k, Bits(v))) == Ones(Least(k, Bits(v)))
  {
    if countdown > 0 {
      TopOnesAfterIs(v, k, countdown - 1);
    }
  }

  lemma TopOnesIs(v: nat, k: nat)
    ensures TopOnes(v, k) <==> Shr(v, Bits(v) - Least(k, Bits(v))) == Ones(Least(k, Bits(v)))
  {
    TopOnesAfterIs(v, k, Bits(v));
  }

  /** v |= v >> k doubles the ones at the top. */
  lemma {:induction false} Smear(v: nat, k: nat)
    requires TopOnes(v, k)
    ensures TopOnes(Or(v, Shr(v, k)), 2 * k) && Bits(Or(v, Shr(v, k))) == Bits(v)
  {
    var l, m, v' := Bits(v), Least(2 * k, Bits(v)), Or(v, Shr(v, k));
    TopOnesIs(v, k);
    TopOnesIs(v', 2 * k);
    ShrBits(v, k);
    OrBits(v, Shr(v, k));
    ShrOr(v, Shr(v, k), l - m);
    if k >= l {
      OnesAbsorb(l, Shr(v, k));
    } else {
      SmearTop(v, k, l, m);
    }
  }

  lemma SmearTop(v: nat, k: nat, l: nat, m: nat)
    requires k < l && m == Least(2 * k, l) && Shr(v, l - k) == Ones(k)
    ensures Or(Shr(v, l - m), Shr(Shr(v, k), l - m)) == Ones(m)
  {
    var x := Shr(v, l - m);
    ShrTwice(v, k, l - m);
    ShrTwice(v, l - m, k);
    ShrTwice(v, l - m, m - k);
    ShrTwice(x, m - k, k - (m - k));
    ShrOnes(k, k - (m - k));
    OnesJoin(x, m - k, k);
  }

  lemma TopOne(v: nat)
    ensures TopOnes(v, 1)
  {
    TopOnesIs(v, 1);
    if v > 0 {
      ShrBits(v, Bits(v) - 1);
      BitsOne(Shr(v, Bits(v) - 1));
    }
  }

  lemma BitsOne(v: nat)
    requires Bits(v) == 1
    ensures v == 1
  {
    assert Bits(v / 2) == 0;
  }

  lemma AllOnes(v: nat, k: nat)
    requires TopOnes(v, k) && Bits(v) <= k
    ensures v == Ones(Bits(v))
  {
    TopOnesIs(v, k);
  }

  /** The least power of two that is not below v. */
  predicate IsLeastPow(v: nat, n: nat) {
    v <= Pow(n) && (n > 0 ==> Pow(n - 1) < v)
  }

  /** v |= v >> k. */
  method OrShifted(v: nat, k: nat) returns (r: nat)
    requires TopOnes(v, k)
    ensures TopOnes(r, 2 * k) && Bits(r) == Bits(v)
  {
    Smear(v, k);
    r := Or(v, Shr(v, k));
  }

  const WORD := 0x1_0000_0000_0000_0000  // numbers are 64 bits wide
  const HALF := 0x8000_0000_0000_0000

  lemma {:induction false} PowSum(i: nat, j: nat)
    ensures Pow(i + j) == Pow(i) * Pow(j)
  {
    if i > 0 {
      PowSum(i - 1, j);
      assert Pow(i + j) == 2 * Pow(i - 1 + j);
    }
  }

  lemma WordIs()
    ensures Pow(63) == HALF && Pow(64) == WORD
  {
    assert Pow(8) == 256;
    PowSum(8, 8);
    PowSum(16, 16);
    PowSum(31, 32);
    assert Pow(32) == 2 * Pow(31) && Pow(64) == 2 * Pow(63);
  }

  lemma PowWord(n: nat)
    ensures n <= 63 <==> Pow(n) <= HALF
    ensures n >= 64 <==> Pow(n) >= WORD
    ensures n == 64 ==> Pow(n) == WORD
  {
    WordIs();
    if n <= 63 {
      PowMono(n, 63);
    } else {
      PowMono(64, n);
    }
  }

  /** The digits of v set to ones from the first 1 on. */
  method Smeared(v: nat) returns (r: nat)
    requires v < WORD
    ensures r == Ones(Bits(v)) && Bits(v) <= 64
  {
    TopOne(v);
    r := OrShifted(v, 1);
    r := OrShifted(r, 2);
    r := OrShifted(r, 4);
    r := OrShifted(r, 8);
    r := OrShifted(r, 16);
    r := OrShifted(r, 32);
    WordBits(v);
    AllOnes(r, 64);
  }

  lemma WordBits(v: nat)
    requires v < WORD
    ensures Bits(v) <= 64 && v < Pow(Bits(v)) && (v > 0 ==> Pow(Bits(v) - 1) <= v)
    ensures Bits(v) == 64 <==> v >= HALF
  {
    BitsBound(v);
    PowWord(Bits(v));
    if v > 0 {
      PowWord(Bits(v) - 1);
    }
  }

  /** alignToPowerOfTwo: the least power of two that is not below `size`, or 0 where there is none in 64 bits and for
      0. */
  method AlignToPowerOfTwo(size: nat) returns (v: nat, ghost n: nat)
    requires size < WORD
    ensures 0 < size <= HALF ==> v == Pow(n) && IsLeastPow(size, n) && n <= 63
    ensures size == 0 || size > HALF ==> v == 0
  {
    v := Sub64(size, 1);
    n := Bits(v);
    WordBits(v);
    v := Smeared(v);
    OnesPow(n);
    PowWord(n);
    v := Add64(v, 1);
  }

  /** a - b and a + b in 64 bits. */
  function Sub64(a: nat, b: nat): (r: nat)
    requires a < WORD && b < WORD
    ensures r == if a < b then a + WORD - b else a - b
  {
    (a - b) % WORD
  }

  function Add64(a: nat, b: nat): (r: nat)
    requires a < WORD && b < WORD
    ensures r == if a + b >= WORD then a + b - WORD else a + b
  {
    (a + b) % WORD
  }

  /** buddyallocatorFindOrder for a least block of one byte: the logarithm, 0 for 0. */
  method FindOrder(size: nat) returns (order: nat)
    ensures size > 0 ==> Pow(order) <= size < Pow(order + 1)
    ensures size == 0 ==> order == 0
  {
    order := 0;
    var num := size;
    while num > 1
      invariant (size > 0 ==> num >= 1) && (size == 0 ==> num == 0 && order == 0) && num == Shr(size, order)
      decreases num
    {
      ShrTwice(size, order, 1);
      num := num / 2;
      order := order + 1;
    }
    ShrBits(size, order);
    BitsBound(size);
  }

  lemma {:induction false} PowUnique(i: nat, j: nat)
    requires Pow(i) <= Pow(j) < Pow(i + 1)
    ensures i == j
  {
    if i < j {
      PowMono(i, j);
    } else if j < i {
      PowMono(j, i);
    }
  }

  // Alignment.

  /** x is a multiple of 2^k. */
  predicate Multiple(x: nat, k: nat) {
    k == 0 || (x % 2 == 0 && Multiple(x / 2, k - 1))
  }

  lemma EvenSum(x: nat, y: nat)
    requires x % 2 == 0
    ensures (x + 2 * y) / 2 == x / 2 + y && (x + 2 * y) % 2 == 0
  {
  }

  lemma {:induction false} HalfMultiple(x: nat, k: nat)
    requires Multiple(x, k + 1)
    ensures Multiple(x, k) && Multiple(x + Pow(k), k)
  {
    if k > 0 {
      HalfMultiple(x / 2, k - 1);
      EvenSum(x, Pow(k - 1));
    }
  }

  /** The two halves of an aligned block are found from each other by flipping one bit. */
  lemma {:induction false} FlipHalf(x: nat, k: nat)
    requires Multiple(x, k + 1)
    ensures FlipBit(x, k) == x + Pow(k) && FlipBit(x + Pow(k), k) == x
  {
    if k > 0 {
      FlipHalf(x / 2, k - 1);
      EvenSum(x, Pow(k - 1));
    }
  }
}
