/**
 a * b / c in 32-bit arithmetic: exact while the product fits, otherwise on
 normalised magnitudes with a bounded error, saturating when that cannot be done.
 */
module ScaledDivision {
  import opened Bits

  const HALF: int := 0x8000_0000
  const FULL: int := 0x1_0000_0000
  const MAX: int := 0x7fff_ffff

  type Word = x: int | -0x8000_0000 < x < 0x8000_0000

  /** The value of a 32-bit register read as signed. */
  function Signed(x: int): (r: int)
    ensures -HALF <= r < HALF
  {
    (x + HALF) % FULL - HALF
  }

  function Abs(x: int): nat {
    if x < 0 then -x else x
  }

  function Sign(x: int): int {
    if x < 0 then -1 else 1
  }

  /** C's division. */
  function Quotient(x: int, y: int): int
    requires y != 0
  {
    Sign(x) * Sign(y) * (Abs(x) / Abs(y))
  }

  // ----- the wrapped test

  lemma Signs(x: int, y: int)
    ensures -x * y == -(x * y) && x * -y == -(x * y) && -x * -y == x * y
  {
  }

  lemma NatProduct(x: nat, y: nat)
    ensures x * y >= 0 && (x > 0 ==> x * y >= y)
  {
    if x > 0 { assert x * y == (x - 1) * y + y; }
  }

  lemma AbsProduct(x: int, y: int)
    ensures Abs(x * y) == Abs(x) * Abs(y)
  {
    Signs(x, y);
    NatProduct(Abs(x), Abs(y));
  }

  /** C's division leaves a remainder smaller than the divisor, with the sign of x. */
  lemma Remainder(x: int, y: int)
    requires y != 0
    ensures var r := x - Quotient(x, y) * y; Abs(r) < Abs(y) && (x >= 0 ==> r >= 0) && (x <= 0 ==> r <= 0)
  {
    var q := Abs(x) / Abs(y);
    DivMod(Abs(x), Abs(y));
    Signs(q, Abs(y));
    assert Quotient(x, y) == if Sign(x) == Sign(y) then q else -q;
  }

  lemma SignedExact(x: int)
    ensures Signed(x) == x <==> -HALF <= x < HALF
  {
  }

  /** The wrapped product divided by b gives a back exactly when nothing wrapped. */
  lemma TestIsExact(a: Word, b: Word)
    requires b != 0
    ensures Quotient(Signed(a * b), b) == a <==> -HALF <= a * b < HALF
  {
    var x := a * b;
    var p := Signed(x);
    Remainder(p, b);
    if Quotient(p, b) == a {
      assert Abs(p - x) < HALF;
      assert p - x == ((x + HALF) % FULL) - (x + HALF);
    }
    if p == x { ExactQuotient(a, b); }
  }

  lemma ExactQuotient(a: int, b: int)
    requires b != 0
    ensures Quotient(a * b, b) == a
  {
    Remainder(a * b, b);
    var q := Quotient(a * b, b);
    assert a * b - q * b == (a - q) * b;
    if q != a { Multiple(a - q, b); }
  }

  lemma Multiple(k: int, b: int)
    requires k != 0
    ensures Abs(k * b) >= Abs(b)
  {
    AbsProduct(k, b);
    NatProduct(Abs(k), Abs(b));
  }

  // ----- the shifts

  /** From `l` down, the first shift that loses no bit of `a`. */
  function LeftFrom(a: nat, l: nat): nat {
    if l == 0 || Shl(a, l) < FULL then l else LeftFrom(a, l - 1)
  }

  /** The shift that leaves the top bit of the word clear. */
  function LeftOf(a: nat): int {
    LeftFrom(a, 31) - 1
  }

  /** From `r` up, the first shift that brings `b` down to `c`. */
  function RightFrom(b: nat, c: nat, r: nat): nat
    requires c > 0
    decreases Shr(b, r)
  {
    if Shr(b, r) <= c then r
    else
      ShrLess(b, r);
      RightFrom(b, c, r + 1)
  }

  function RightOf(b: nat, c: nat): nat
    requires c > 0
  {
    RightFrom(b, c, 0)
  }

  lemma ShrLess(b: nat, r: nat)
    requires Shr(b, r) > 0
    ensures Shr(b, r + 1) == Shr(b, r) / 2 < Shr(b, r)
  {
    ShrShr(b, r, 1);
  }

  lemma {:induction false} LeftFacts(a: nat, l: nat)
    requires a < FULL && (l == 31 || Shl(a, l + 1) >= FULL) && l <= 31
    ensures var k := LeftFrom(a, l); k <= 31 && Shl(a, k) < FULL && (k == 31 || Shl(a, k + 1) >= FULL)
  {
    if l > 0 && Shl(a, l) >= FULL { LeftFacts(a, l - 1); }
  }

  /** A magnitude below 2^31 can be shifted by one at least. */
  lemma LeftPositive(a: nat)
    requires a < HALF
    ensures LeftFrom(a, 31) >= 1
  {
    LeftFacts(a, 31);
  }

  /** The loop's test: shifting there and back changes the value exactly when bits were lost. */
  lemma LosesBits(a: nat, l: nat)
    requires a < HALF && l <= 31
    ensures Shr(Low(Shl(a, l), 32), l) != a <==> Shl(a, l) >= FULL
  {
    hide Pow2;
    Pow32();
    if Shl(a, l) < FULL {
      LowFits(Shl(a, l), 32);
      assert 0 < Pow2(l);
      SplitUnique(a, 0, l);
    } else {
      SplitAt(Shl(a, l), 32);
      ShrBound(Low(Shl(a, l), 32), l, 32 - l);
      if a < Pow2(32 - l) { ShlBound(a, 32 - l, l); }
    }
  }

  lemma {:induction false} RightFacts(b: nat, c: nat, r: nat)
    requires c > 0 && (r > 0 ==> Shr(b, r - 1) > c)
    ensures var k := RightFrom(b, c, r); k >= r && Shr(b, k) <= c && (k > 0 ==> Shr(b, k - 1) > c)
    decreases Shr(b, r)
  {
    if Shr(b, r) > c {
      ShrLess(b, r);
      RightFacts(b, c, r + 1);
    }
  }

  // ----- the approximation

  /** Not above a * b / c, and below it by less than b / 2^s + 1. */
  ghost predicate Close(a: nat, b: nat, c: nat, s: nat, v: nat) {
    v * c <= a * b && (a * b - v * c) * Pow2(s) < c * (b + Pow2(s))
  }

  /** What the unsaturated branch computes. */
  function Scaled(a: nat, b: nat, c: nat, s: nat): nat
    requires c > 0
  {
    Shr(Shl(a, s) / c * b, s)
  }

  lemma ScaledClose(a: nat, b: nat, c: nat, s: nat)
    requires c > 0
    ensures Close(a, b, c, s, Scaled(a, b, c, s))
  {
    hide Shl, Shr, Low, Pow2;
    var p := Pow2(s);
    ShlPow(a, s);
    var d := a * p / c;
    NatProduct(d, b);
    var w := d * b;
    SplitAt(w, s);
    var v := Shr(w, s);
    ShlPow(v, s);
    DivMod(a * p, c);
    CloseBounds(a, b, c, p, d, w, v);
  }

  lemma CloseBounds(a: nat, b: nat, c: nat, p: nat, d: nat, w: nat, v: nat)
    requires c > 0 && p > 0 && w == d * b
    requires 0 <= a * p - d * c < c && v * p <= w < v * p + p
    ensures v * c <= a * b && (a * b - v * c) * p < c * (b + p)
  {
    var e, f := a * p - d * c, w - v * p;
    Distribute(d * c, e, b);
    Swap(d, c, b);
    Distribute(v * p, f, c);
    Swap(v, p, c);
    Swap(a, p, b);
    Collect(a * b, v * c, p, f * c, e * b);
    NatProduct(f, c);
    NatProduct(e, b);
    if a * b < v * c { NegativeProduct(a * b - v * c, p); }
    Less(f, p, c);
    LessEq(e, c, b);
    Distribute(b, p, c);
  }

  lemma Distribute(x: int, y: int, z: int)
    ensures (x + y) * z == x * z + y * z && z * (x + y) == (x + y) * z
  {
  }

  lemma Swap(x: int, y: int, z: int)
    ensures (x * y) * z == (x * z) * y
  {
  }

  lemma Collect(x: int, y: int, p: int, f: int, e: int)
    requires x * p == y * p + f + e
    ensures (x - y) * p == f + e
  {
  }

  lemma NegativeProduct(x: int, p: nat)
    requires x < 0 && p > 0
    ensures x * p < 0
  {
  }

  lemma Less(x: nat, y: nat, c: nat)
    requires x < y && c > 0
    ensures x * c < y * c
  {
  }

  lemma LessEq(x: nat, y: nat, c: nat)
    requires x <= y
    ensures x * c <= y * c
  {
  }

  /** The product in the unsaturated branch stays inside 32 bits. */
  lemma ProductFits(a: nat, b: nat, c: nat, l: nat, r: nat)
    requires c > 0 && r <= l && Shl(a, l + 1) < FULL && Shr(b, r) <= c
    ensures Shl(a, l - r) < HALF && Shl(a, l - r) / c * b < FULL
  {
    hide Shl, Shr, Low, Pow2;
    var p, q := Pow2(l - r), Pow2(r);
    ShlPow(a, l - r);
    ShlPow(a * p, r);
    ShlShl(a, l - r, r);
    ShlShl(a, l, 1);
    DoubleShl(Shl(a, l));
    // a * p * q < HALF and b < (c + 1) * q
    SplitAt(b, r);
    ShlPow(Shr(b, r), r);
    LessEq(Shr(b, r), c, q);
    var n := a * p;
    NatProduct(q, n);
    DivMod(n, c);
    ProductBound(n, b, c, q, n / c);
  }

  lemma DoubleShl(v: nat)
    ensures Shl(v, 1) == 2 * v
  {
    assert Shl(v, 0) == v;
  }

  lemma ProductBound(n: nat, b: nat, c: nat, q: nat, d: nat)
    requires c > 0 && q > 0 && n * q < HALF && b < c * q + q && d * c <= n
    ensures d * b < FULL
  {
    // d * b < d * (c + 1) * q <= 2 * d * c * q <= 2 * n * q
    LessEq(b, c * q + q, d);
    assert d * (c * q + q) == (d * c) * q + d * q;
    LessEq(d * c, n, q);
    NatProduct(c, d);
    assert d * c == c * d >= d;
    LessEq(d, d * c, q);
    if d > 0 { Less(b, c * q + q, d); }
  }

  /** Saturation happens only past 2^30. */
  lemma SaturatesHigh(a: nat, b: nat, c: nat, l: int, r: nat)
    requires 0 < a && c > 0 && 0 <= l && l < r && (l == 30 || Shl(a, l + 2) >= FULL) && Shr(b, r - 1) > c
    ensures a * b > c * 0x4000_0000
  {
    hide Shl, Shr, Low, Pow2;
    var q := Pow2(r - 1);
    var p := Pow2(l);
    SplitAt(b, r - 1);
    ShlPow(Shr(b, r - 1), r - 1);
    Less(c, Shr(b, r - 1), q);
    PowMono(l, r - 1);
    LessEq(p, q, c);
    assert b > c * p;
    HighA(a, l);
    // a * p >= 2^30
    Less(c * p, b, a);
    assert (c * p) * a == (a * p) * c;
    LessEq(0x4000_0000, a * p, c);
  }

  lemma HighA(a: nat, l: nat)
    requires 0 < a && (l == 30 || Shl(a, l + 2) >= FULL)
    ensures a * Pow2(l) >= 0x4000_0000
  {
    hide Shl, Pow2;
    if l == 30 {
      Pow30();
      LessEq(1, a, Pow2(30));
    } else {
      ShlPow(a, l + 2);
      FourTimes(l);
      assert a * (4 * Pow2(l)) == 4 * (a * Pow2(l));
    }
  }

  lemma FourTimes(l: nat)
    ensures Pow2(l + 2) == 4 * Pow2(l)
  {
  }

  lemma Pow30()
    ensures Pow2(30) == 0x4000_0000
  {
    Pow32();
    assert Pow2(31) == 2 * Pow2(30);
    assert Pow2(32) == 2 * Pow2(31);
  }

  // ----- the methods

  /** The largest shift, from 31 down, that loses no bit. */
  method FindLeft(a: nat) returns (left: nat)
    requires 0 < a < HALF
    ensures left == LeftFrom(a, 31)
  {
    left := 31;
    LosesBits(a, left);
    LeftPositive(a);
    while Shr(Low(Shl(a, left), 32), left) != a
      invariant left <= 31 && LeftFrom(a, left) == LeftFrom(a, 31) >= 1
      invariant Shr(Low(Shl(a, left), 32), left) != a <==> Shl(a, left) >= FULL
      decreases left
    {
      left := left - 1;
      LosesBits(a, left);
    }
  }

  method FindRight(b: nat, c: nat) returns (right: nat)
    requires c > 0
    ensures right == RightOf(b, c)
  {
    right := 0;
    while Shr(b, right) > c
      invariant RightFrom(b, c, right) == RightOf(b, c)
      decreases Shr(b, right)
    {
      ShrLess(b, right);
      right := right + 1;
    }
  }

  /** The long way, on magnitudes with the larger factor first. */
  method Normalised(a: nat, b: nat, c: nat, sign: int) returns (r: int)
    requires 0 < b <= a < HALF && 0 < c < HALF
    ensures var s := LeftOf(a) - RightOf(b, c);
            if s < 0 then r == MAX * sign && a * b > c * 0x4000_0000
            else r == Signed(Scaled(a, b, c, s)) * sign && Scaled(a, b, c, s) < FULL && (s > 0 ==> Scaled(a, b, c, s) < HALF)
  {
    hide Shl, Shr, Low, Pow2;
    var left := FindLeft(a);
    LeftPositive(a);
    LeftFacts(a, 31);
    left := left - 1;
    var right := FindRight(b, c);
    RightFacts(b, c, 0);
    if right > left {
      SaturatesHigh(a, b, c, left, right);
      return MAX * sign;
    }
    var shift := left - right;
    ProductFits(a, b, c, left, right);
    InWord(Shl(a, shift));
    NatProduct(Shl(a, shift) / c, b);
    InWord(Shl(a, shift) / c * b);
    var q := Low(Shl(a, shift), 32) / c;
    q := Low(q * b, 32);
    ShrTop(q, shift);
    r := Signed(Shr(q, shift)) * sign;
  }

  lemma InWord(v: nat)
    requires v < FULL
    ensures Low(v, 32) == v
  {
    Pow32();
    LowFits(v, 32);
  }

  lemma ShrTop(v: nat, s: nat)
    requires v < FULL
    ensures Shr(v, s) < FULL && (s > 0 ==> Shr(v, s) < HALF)
  {
    hide Pow2;
    SplitAt(v, s);
    ShlPow(Shr(v, s), s);
    if s > 0 {
      PowMono(1, s);
      Pow8();
      LessEq(2, Pow2(s), Shr(v, s));
    } else {
      NoShift(v);
    }
  }

  lemma NoShift(v: nat)
    ensures Shr(v, 0) == v
  {
  }

  /** The sign of a * b / c. */
  function Signs3(a: int, b: int, c: int): int {
    Sign(a) * Sign(b) * Sign(c)
  }

  function Larger(a: int, b: int): nat {
    if Abs(b) > Abs(a) then Abs(b) else Abs(a)
  }

  function Smaller(a: int, b: int): nat {
    if Abs(b) > Abs(a) then Abs(a) else Abs(b)
  }

  /** `axb_div_c`.  The one quotient that does not fit, 2^31 from a product of -2^31 and c = -1, is left to the caller. */
  method AxbDivC(a: Word, b: Word, c: Word) returns (r: int)
    requires !(a * b == -HALF && c == -1)
    ensures a == 0 || b == 0 ==> r == 0
    ensures a != 0 && b != 0 && c == 0 ==> r == MAX * Signs3(a, b, c)
    ensures a != 0 && b != 0 && c != 0 && -HALF <= a * b < HALF ==> r == Quotient(a * b, c)
    ensures a != 0 && b != 0 && c != 0 && !(-HALF <= a * b < HALF) ==>
              Approximates(Larger(a, b), Smaller(a, b), Abs(c), Signs3(a, b, c), r)
    ensures r * Signs3(a, b, c) < 0 <==> SignLost(a, b, c)
  {
    hide Quotient, Scaled, LeftOf, RightOf, Approximates;
    var x: int, y: int, z: int := a, b, c;
    var sign := 1;
    if x == 0 || y == 0 {
      return 0;
    }
    TestIsExact(a, b);
    if Quotient(Signed(x * y), y) == x && z != 0 {
      SignedExact(x * y);
      RightSign(a, b, c);
      return Quotient(Signed(x * y), z);
    }
    if x < 0 {
      sign := -1;
      x := -x;
    }
    if y < 0 {
      sign := sign * -1;
      y := -y;
    }
    if z < 0 {
      sign := sign * -1;
      z := -z;
    }
    assert x == Abs(a) && y == Abs(b) && z == Abs(c) && sign == Signs3(a, b, c);
    if z == 0 {
      return MAX * sign;
    }
    if y > x {
      x, y := y, x;
    }
    r := Normalised(x, y, z, sign);
    ApproximatesBy(x, y, z, sign, r);
    SignLostIff(a, b, c, r);
  }

  /**
   The result when the product does not fit.  The guard and a / c * b can be computed
   before the call: saturated, past 2^30 only, where the guard fails; of the wrong sign,
   2^32 short, exactly where it holds and a / c * b is 2^31 or more; and otherwise
   exact up to less than b / 2^s + 1.
   */
  ghost predicate Approximates(a: nat, b: nat, c: nat, sign: int, r: int)
    requires c > 0
  {
    var s := LeftOf(a) - RightOf(b, c);
    if s < 0 then r == MAX * sign && a * b > c * 0x4000_0000
    else if a / c * b >= HALF then r == (a / c * b - FULL) * sign && a * b >= c * HALF && a / c * b < FULL
    else r == Scaled(a, b, c, s) * sign && Scaled(a, b, c, s) < HALF && Close(a, b, c, s, Scaled(a, b, c, s))
  }

  lemma ApproximatesBy(a: nat, b: nat, c: nat, sign: int, r: int)
    requires c > 0 && (sign == 1 || sign == -1)
    requires var s := LeftOf(a) - RightOf(b, c);
             if s < 0 then r == MAX * sign && a * b > c * 0x4000_0000
             else r == Signed(Scaled(a, b, c, s)) * sign && Scaled(a, b, c, s) < FULL && (s > 0 ==> Scaled(a, b, c, s) < HALF)
    ensures Approximates(a, b, c, sign, r)
  {
    hide Scaled, LeftOf, RightOf;
    var s := LeftOf(a) - RightOf(b, c);
    if s >= 0 {
      ScaledClose(a, b, c, s);
      var v := Scaled(a, b, c, s);
      ScaledAbove(a, b, c, s);
      Unshifted(a, b, c);
      assert HALF * c == c * HALF;
      if v >= HALF { LessEq(HALF, v, c); }
    }
  }

  lemma Unshifted(a: nat, b: nat, c: nat)
    requires c > 0
    ensures Scaled(a, b, c, 0) == a / c * b
  {
  }

  /** Shifting first loses nothing that the plain division keeps. */
  lemma ScaledAbove(a: nat, b: nat, c: nat, s: nat)
    requires c > 0
    ensures Scaled(a, b, c, s) >= a / c * b
  {
    hide Shl, Shr, Low, Pow2;
    var p, q := Pow2(s), a / c;
    ShlPow(a, s);
    DivMod(a, c);
    NatProduct(q, b);
    var d := a * p / c;
    DivMod(a * p, c);
    // q * p <= d, so q * b * p <= d * b
    LessEq(q * c, a, p);
    Swap(q, c, p);
    if q * p > d { LessEq(d + 1, q * p, c); Distribute(d, 1, c); }
    LessEq(q * p, d, b);
    Swap(q, p, b);
    SplitAt(d * b, s);
    ShlPow(Shr(d * b, s), s);
    var v := Shr(d * b, s);
    if v < q * b { LessEq(v + 1, q * b, p); Distribute(v, 1, p); }
  }

  /** What a caller can test: the product does not fit, the guard holds, and a / c * b is 2^31 or more. */
  predicate SignLost(a: int, b: int, c: int) {
    && a != 0 && b != 0 && c != 0 && !(-HALF <= a * b < HALF)
    && LeftOf(Larger(a, b)) >= RightOf(Smaller(a, b), Abs(c)) && Larger(a, b) / Abs(c) * Smaller(a, b) >= HALF
  }

  lemma SignLostIff(a: Word, b: Word, c: Word, r: int)
    requires a != 0 && b != 0 && c != 0 && !(-HALF <= a * b < HALF)
    requires Approximates(Larger(a, b), Smaller(a, b), Abs(c), Signs3(a, b, c), r)
    ensures r * Signs3(a, b, c) < 0 <==> SignLost(a, b, c)
  {
    hide Scaled, LeftOf, RightOf;
  }

  /** C's division has the sign of the three factors. */
  lemma RightSign(a: int, b: int, c: int)
    requires a != 0 && b != 0 && c != 0
    ensures Quotient(a * b, c) * Signs3(a, b, c) >= 0
  {
    SignProduct(a, b);
    QuotientSign(a * b, c);
  }

  lemma SignProduct(a: int, b: int)
    requires a != 0 && b != 0
    ensures Sign(a * b) == Sign(a) * Sign(b)
  {
    Signs(Abs(a), Abs(b));
    NatProduct(Abs(a), Abs(b));
  }

  lemma QuotientSign(x: int, c: int)
    requires c != 0
    ensures Quotient(x, c) * (Sign(x) * Sign(c)) >= 0
  {
    DivMod(Abs(x), Abs(c));
    var q: int := Abs(x) / Abs(c);
    if Sign(x) == Sign(c) { assert Quotient(x, c) == q; } else { assert Quotient(x, c) == -q; }
  }

  /** Such a case: 1073741823 * 3 / 1 comes out as -1073741827. */
  lemma WrongSign(r: int)
    requires Approximates(Larger(1073741823, 3), Smaller(1073741823, 3), 1, 1, r)
    ensures r == -1073741827
  {
    var a := 1073741823;
    assert LeftOf(a) == 1 by { LeftTwo(); }
    assert RightOf(3, 1) == 1 by {
      assert Shr(3, 0) == 3 && Shr(3, 1) == 1;
    }
  }

  lemma LeftTwo()
    ensures LeftFrom(1073741823, 31) == 2
  {
    var a := 1073741823;
    LeftFacts(a, 31);
    var k := LeftFrom(a, 31);
    assert Shl(a, 1) == 2 * a && Shl(a, 2) == 4 * a && Shl(a, 3) == 8 * a;
    if k > 2 { ShlMono(a, 3, k); }
    if k < 2 { ShlMono(a, k + 1, 2); }
  }

  lemma {:induction false} ShlMono(v: nat, m: nat, n: nat)
    requires m <= n
    ensures Shl(v, m) <= Shl(v, n)
  {
    if m < n { ShlMono(v, m, n - 1); }
  }

  // ----- logarithm

  /** The 256-entry table. */
  function TableAt(v: nat): nat
    requires v < 256
  {
    if v < 2 then 0
    else if v < 4 then 1
    else if v < 8 then 2
    else if v < 16 then 3
    else if v < 32 then 4
    else if v < 64 then 5
    else if v < 128 then 6
    else 7
  }

  /** `mpp_log2`: the position of the highest one, and 0 for 0. */
  method Log2(value: nat) returns (n: nat)
    requires value < FULL
    ensures value > 0 ==> Pow2(n) <= value < Pow2(n + 1)
    ensures value == 0 ==> n == 0
  {
    var v := value;
    n := 0;
    if v / 0x1_0000 != 0 {
      v := v / 0x1_0000;
      n := n + 16;
    }
    if v / 0x100 != 0 {
      v := v / 0x100;
      n := n + 8;
    }
    Powers();
    TableFits(v);
    PowSum(TableAt(v), n);
    PowSum(TableAt(v) + 1, n);
    ShlPow(Pow2(TableAt(v)), n);
    ShlPow(Pow2(TableAt(v) + 1), n);
    n := n + TableAt(v);
  }

  lemma Powers()
    ensures Pow2(0) == 1 && Pow2(8) == 0x100 && Pow2(16) == 0x1_0000 && Pow2(24) == 0x100_0000
  {
    Pow8();
    Pow32();
  }

  lemma TableFits(v: nat)
    requires v < 256
    ensures v > 0 ==> Pow2(TableAt(v)) <= v < Pow2(TableAt(v) + 1)
    ensures v == 0 ==> TableAt(v) == 0
  {
    Pow8();
    assert Pow2(0) == 1 && Pow2(2) == 4 && Pow2(3) == 8 && Pow2(4) == 16 && Pow2(5) == 32 && Pow2(6) == 64 && Pow2(7) == 128;
  }
}
