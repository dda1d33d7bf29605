/** Powers of two, and the bit operations the buddy allocator uses to round a
    page count up (Kernel/utils/memManagerBuddy.c).  Words are naturals below
    2^32; `|`, `&` and `>>` are defined on their binary digits. */
module Bits {

  function Pow2(k: nat): (r: nat)
    ensures r >= 1
  {
    if k == 0 then 1 else 2 * Pow2(k - 1)
  }

  lemma Pow2Monotone(a: nat, b: nat)
    requires a <= b
    ensures Pow2(a) <= Pow2(b)
  {
    if a < b { Pow2Monotone(a, b - 1); }
  }

  lemma Pow2Strict(a: nat, b: nat)
    requires a < b
    ensures 2 * Pow2(a) <= Pow2(b)
  {
    Pow2Monotone(a + 1, b);
  }

  lemma Pow2Injective(a: nat, b: nat)
    requires Pow2(a) == Pow2(b)
    ensures a == b
  {
    if a < b { Pow2Strict(a, b); } else if b < a { Pow2Strict(b, a); }
  }

  lemma Pow2Add(a: nat, b: nat)
    ensures Pow2(a + b) == Pow2(a) * Pow2(b)
  {
    if a > 0 {
      Pow2Add(a - 1, b);
      assert a + b - 1 == (a - 1) + b;
    }
  }

  // ---- multiples -----------------------------------------------------------

  lemma MulGe(x: int, d: nat)
    requires x >= 1
    ensures x * d >= d
  {
  }

  lemma DivUnique(a: int, d: nat, q: int, r: nat)
    requires d > 0 && r < d && a == q * d + r
    ensures a / d == q && a % d == r
  {
    var q', r' := a / d, a % d;
    assert a == q' * d + r';
    assert (q - q') * d == r' - r;
    assert (q' - q) * d == r - r';
    if q - q' >= 1 {
      MulGe(q - q', d);
    } else if q - q' <= -1 {
      MulGe(q' - q, d);
    }
  }

  lemma MultipleOf(x: int, n: nat)
    requires n > 0
    ensures (x * n) % n == 0
  {
    DivUnique(x * n, n, x, 0);
  }

  lemma MultipleOfMultiple(x: int, y: nat, n: nat)
    requires n > 0
    ensures (x * (y * n)) % n == 0
  {
    assert x * (y * n) == (x * y) * n;
    MultipleOf(x * y, n);
  }

  /** Two multiples of n less than n apart are equal. */
  lemma MultiplesApart(a: nat, c: nat, n: nat)
    requires n > 0 && a % n == 0 && c % n == 0 && a <= c < a + n
    ensures a == c
  {
    var x, y := a / n, c / n;
    assert a == x * n && c == y * n;
    assert (y - x) * n == c - a;
    if y - x >= 1 {
      MulGe(y - x, n);
    } else if y - x <= -1 {
      MulGe(x - y, n);
    }
  }

  // ---- bitwise operators -------------------------------------------------

  function Or(a: nat, b: nat): nat
    decreases a + b
  {
    if a == 0 then b
    else if b == 0 then a
    else 2 * Or(a / 2, b / 2) + (if a % 2 == 1 || b % 2 == 1 then 1 else 0)
  }

  function And(a: nat, b: nat): nat
    decreases a
  {
    if a == 0 then 0
    else 2 * And(a / 2, b / 2) + (if a % 2 == 1 && b % 2 == 1 then 1 else 0)
  }

  function Shr(a: nat, n: nat): nat
    decreases a, n
  {
    if n == 0 then a else Shr(a / 2, n - 1)
  }

  predicate Bit(a: nat, i: nat) {
    Shr(a, i) % 2 == 1
  }

  lemma {:induction false} OrBit(a: nat, b: nat, i: nat)
    ensures Bit(Or(a, b), i) <==> Bit(a, i) || Bit(b, i)
    decreases i
  {
    if i > 0 {
      assert Or(a, b) / 2 == Or(a / 2, b / 2);
      OrBit(a / 2, b / 2, i - 1);
    }
  }

  lemma {:induction false} ShrBit(a: nat, n: nat, i: nat)
    ensures Bit(Shr(a, n), i) <==> Bit(a, n + i)
    decreases n
  {
    if n > 0 { ShrBit(a / 2, n - 1, i); }
  }

  function Smear(y: nat, n: nat): nat {
    Or(y, Shr(y, n))
  }

  // ---- the smear used by next_pow_of_2 -----------------------------------

  // Bit k is the leading bit of y, and it heads a run of n ones (or reaches bit 0).
  ghost predicate TopOnes(y: nat, k: nat, n: nat) {
    && (forall i: nat :: k - n < i <= k ==> Bit(y, i))
    && (forall i: nat :: i > k ==> !Bit(y, i))
  }

  lemma SmearStep(y: nat, k: nat, n: nat, z: nat)
    requires n >= 1 && TopOnes(y, k, n) && z == Smear(y, n)
    ensures TopOnes(z, k, 2 * n)
  {
    forall i: nat | k - 2 * n < i <= k ensures Bit(z, i) {
      SmearBit(y, n, i);
      assert if i > k - n then Bit(y, i) else Bit(y, n + i);
    }
    forall i: nat | i > k ensures !Bit(z, i) {
      SmearBit(y, n, i);
      assert !Bit(y, i) && !Bit(y, n + i);
    }
  }

  lemma SmearBit(y: nat, n: nat, i: nat)
    ensures Bit(Smear(y, n), i) <==> Bit(y, i) || Bit(y, n + i)
  {
    OrBit(y, Shr(y, n), i);
    ShrBit(y, n, i);
  }

  lemma {:induction false} NoBits(y: nat)
    requires forall i: nat :: !Bit(y, i)
    ensures y == 0
    decreases y
  {
    if y > 0 {
      assert !Bit(y, 0);
      forall i: nat ensures !Bit(y / 2, i) { assert Bit(y / 2, i) == Bit(y, i + 1); }
      NoBits(y / 2);
    }
  }

  lemma {:induction false} AllOnes(y: nat, k: nat)
    requires TopOnes(y, k, k + 1)
    ensures y == Pow2(k + 1) - 1
    decreases k
  {
    assert Bit(y, 0);
    forall i: nat ensures Bit(y / 2, i) == Bit(y, i + 1) {}
    if k == 0 {
      NoBits(y / 2);
    } else {
      AllOnes(y / 2, k - 1);
    }
  }

  lemma {:induction false} LeadingOne(x: nat, k: nat)
    requires Pow2(k) <= x < Pow2(k + 1)
    ensures TopOnes(x, k, 1)
    decreases k
  {
    if k == 0 {
      assert x == 1;
      forall i: nat | i > 0 ensures !Bit(x, i) { ZeroBit(i - 1); }
    } else {
      LeadingOne(x / 2, k - 1);
      forall i: nat | i > 0 ensures Bit(x, i) == Bit(x / 2, i - 1) {}
    }
  }

  lemma {:induction false} ZeroBit(i: nat)
    ensures !Bit(0, i)
    decreases i
  {
    if i > 0 { ZeroBit(i - 1); }
  }

  // Every positive number has a leading bit.
  lemma LeadingBit(x: nat) returns (k: nat)
    requires x >= 1
    ensures Pow2(k) <= x < Pow2(k + 1)
  {
    k := 0;
    while x >= Pow2(k + 1)
      invariant Pow2(k) <= x
      decreases x - Pow2(k)
    {
      k := k + 1;
    }
  }

  /** is_pow_of_2 */
  predicate IsPowerOfTwo(x: nat) {
    x == 0 || And(x, x - 1) == 0
  }

  lemma {:induction false} AndSelf(x: nat)
    ensures And(x, x) == x
    decreases x
  {
    if x > 0 { AndSelf(x / 2); }
  }

  ghost predicate SomePow2(x: nat) {
    exists k: nat :: x == Pow2(k)
  }

  lemma Pow2Halves(x: nat)
    requires x >= 2
    ensures SomePow2(x) <==> x % 2 == 0 && SomePow2(x / 2)
  {
    if SomePow2(x) {
      var k: nat :| x == Pow2(k);
      assert x / 2 == Pow2(k - 1);
    }
    if x % 2 == 0 && SomePow2(x / 2) {
      var k: nat :| x / 2 == Pow2(k);
      assert x == Pow2(k + 1);
    }
  }

  /** The kernel's test accepts exactly zero and the powers of two. */
  lemma {:induction false} IsPowerOfTwoExact(x: nat)
    ensures IsPowerOfTwo(x) <==> x == 0 || SomePow2(x)
    decreases x
  {
    if x == 0 {
      assert IsPowerOfTwo(x);
    } else if x == 1 {
      assert x == Pow2(0);
      assert IsPowerOfTwo(x);
    } else {
      Pow2Halves(x);
      var h := x / 2;
      if x % 2 == 1 {
        // x - 1 keeps the leading bits of x
        assert (x - 1) / 2 == h;
        AndSelf(h);
      } else {
        IsPowerOfTwoExact(h);
        assert (x - 1) / 2 == h - 1;
      }
    }
  }

  /** next_pow_of_2, on 32-bit words: the final `+ 1` wraps. */
  function NextPow2(x: nat): nat {
    if IsPowerOfTwo(x) then x
    else (FiveSmears(x) + 1) % 0x1_0000_0000
  }

  lemma Pow2Of32()
    ensures Pow2(32) == 0x1_0000_0000
  {
    assert Pow2(8) == 256;
    Pow2Add(8, 8);
    assert Pow2(16) == 65536;
    Pow2Add(16, 16);
  }

  function FiveSmears(x: nat): nat {
    Smear(Smear(Smear(Smear(Smear(x, 1), 2), 4), 8), 16)
  }

  /** The five shifts set every bit below the leading one. */
  lemma SmearOnes(x: nat, k: nat)
    requires Pow2(k) <= x < Pow2(k + 1) && k < 32
    ensures FiveSmears(x) == Pow2(k + 1) - 1
  {
    hide Or, Shr, Smear, Bit, TopOnes, Pow2;
    LeadingOne(x, k);
    var a := Smear(x, 1);
    SmearStep(x, k, 1, a);
    var b := Smear(a, 2);
    SmearStep(a, k, 2, b);
    var c := Smear(b, 4);
    SmearStep(b, k, 4, c);
    var d := Smear(c, 8);
    SmearStep(c, k, 8, d);
    var e := Smear(d, 16);
    SmearStep(d, k, 16, e);
    TopAll(e, k, 32);
    AllOnes(e, k);
  }

  lemma TopAll(y: nat, k: nat, n: nat)
    requires TopOnes(y, k, n) && k < n
    ensures TopOnes(y, k, k + 1)
  {
    hide Bit;
  }

  lemma SmearAll(x: nat, k: nat)
    requires Pow2(k) <= x < Pow2(k + 1) && k < 32
    requires !IsPowerOfTwo(x)
    ensures NextPow2(x) == if k < 31 then Pow2(k + 1) else 0
  {
    hide FiveSmears, IsPowerOfTwo;
    SmearOnes(x, k);
    Pow2Monotone(k + 1, if k < 31 then 31 else 32);
    Pow2Of32();
    assert Pow2(32) == 2 * Pow2(31);
  }

  /** For every word from 1 to 2^31 the result is the least power of two that is not smaller; for 0 and
      for every larger word it is 0. */
  lemma NextPow2IsLeast(x: nat) returns (k: nat)
    requires x < 0x1_0000_0000
    ensures 1 <= x <= 0x8000_0000 ==> NextPow2(x) == Pow2(k) && x <= Pow2(k)
    ensures 1 <= x <= 0x8000_0000 ==> forall j: nat :: x <= Pow2(j) ==> Pow2(k) <= Pow2(j)
    ensures x == 0 || x > 0x8000_0000 ==> NextPow2(x) == 0
  {
    hide FiveSmears, And;
    k := 0;
    Pow2Of32();
    assert Pow2(32) == 2 * Pow2(31);
    if x > 0 {
      IsPowerOfTwoExact(x);
      var m := LeadingBit(x);
      if m >= 32 { Pow2Monotone(32, m); }
      if IsPowerOfTwo(x) {
        k :| x == Pow2(k);
        if k >= 32 { Pow2Monotone(32, k); } else { Pow2Monotone(k, 31); }
      } else {
        SmearAll(x, m);
        k := m + 1;
        assert x != Pow2(m);
        if m < 31 { Pow2Monotone(m + 1, 31); } else { Pow2Monotone(31, m); }
        forall j: nat | x <= Pow2(j) ensures Pow2(k) <= Pow2(j) {
          if j <= m { Pow2Monotone(j, m); } else { Pow2Monotone(k, j); }
        }
      }
    }
  }
}
