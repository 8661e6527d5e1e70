/**
 Bit strings, most significant bit first, and their values.  The bit-field code
 shifts, masks and ors machine words; `Shl`, `Shr`, `Low` and `Or` are those
 operators on naturals, defined bit by bit.
 */
module Bits {
  import opened Common

  type Byte = x: int | 0 <= x < 256

  function Pow2(n: nat): (p: nat)
    ensures p > 0
  {
    if n == 0 then 1 else 2 * Pow2(n - 1)
  }

  /** The number a bit string denotes. */
  function Value(b: seq<bool>): nat {
    if b == [] then 0 else 2 * Value(b[..|b| - 1]) + Digit(b[|b| - 1])
  }

  /** The low `n` bits of `v`. */
  function BitsOf(v: nat, n: nat): (b: seq<bool>)
    ensures |b| == n
  {
    if n == 0 then [] else BitsOf(v / 2, n - 1) + [v % 2 == 1]
  }

  function Shl(v: nat, n: nat): nat {
    if n == 0 then v else 2 * Shl(v, n - 1)
  }

  function Shr(v: nat, n: nat): nat {
    if n == 0 then v else Shr(v / 2, n - 1)
  }

  /** What a mask of `n` ones leaves. */
  function Low(v: nat, n: nat): nat {
    if n == 0 then 0 else 2 * Low(v / 2, n - 1) + v % 2
  }

  function Or(a: nat, b: nat): nat {
    if a == 0 && b == 0 then 0
    else 2 * Or(a / 2, b / 2) + (if a % 2 == 1 || b % 2 == 1 then 1 else 0)
  }

  function And(a: nat, b: nat): nat {
    if a == 0 || b == 0 then 0
    else 2 * And(a / 2, b / 2) + (if a % 2 == 1 && b % 2 == 1 then 1 else 0)
  }

  /** `v` has no bit at position `n` or above. */
  predicate Fits(v: nat, n: nat) {
    v < Pow2(n)
  }

  // ----- one bit at a time

  lemma ShlStep(v: nat, n: nat)
    requires n > 0
    ensures Shl(v, n) == 2 * Shl(v, n - 1)
  {
  }

  lemma ShrStep(v: nat, n: nat)
    requires n > 0
    ensures Shr(v, n) == Shr(v / 2, n - 1)
  {
  }

  lemma LowStep(v: nat, n: nat)
    requires n > 0
    ensures Low(v, n) == 2 * Low(v / 2, n - 1) + v % 2
    ensures Low(v, n) / 2 == Low(v / 2, n - 1) && Low(v, n) % 2 == v % 2
  {
  }

  lemma OrStep(a: nat, b: nat)
    ensures Or(a, b) == 2 * Or(a / 2, b / 2) + Digit(a % 2 == 1 || b % 2 == 1)
    ensures Or(a, b) / 2 == Or(a / 2, b / 2) && Or(a, b) % 2 == Digit(a % 2 == 1 || b % 2 == 1)
  {
  }

  lemma AndStep(a: nat, b: nat)
    ensures And(a, b) == 2 * And(a / 2, b / 2) + Digit(a % 2 == 1 && b % 2 == 1)
  {
  }

  lemma NoBit(v: nat)
    ensures Shl(v, 0) == v && Shr(v, 0) == v && Low(v, 0) == 0 && Pow2(0) == 1
  {
  }

  lemma PowStep(n: nat)
    requires n > 0
    ensures Pow2(n) == 2 * Pow2(n - 1)
  {
  }

  /** Bit `k` of a word. */
  predicate BitAt(v: nat, k: nat) {
    v / Pow2(k) % 2 == 1
  }

  lemma {:induction false} HalfDown(v: nat, k: nat)
    requires k > 0
    ensures BitAt(v, k) == BitAt(v / 2, k - 1)
  {
    var p := Pow2(k - 1);
    assert v / (2 * p) == v / 2 / p by { HalfDiv(v, p); }
  }

  lemma HalfDiv(v: nat, p: nat)
    requires p > 0
    ensures v / (2 * p) == v / 2 / p
  {
    var q, r := v / 2 / p, v / 2 % p;
    assert v / 2 == q * p + r;
    var t := 2 * r + v % 2;
    assert v == q * (2 * p) + t && t < 2 * p;
    Quotient(v, 2 * p, q, t);
  }

  lemma Quotient(v: nat, d: nat, q: nat, t: nat)
    requires v == q * d + t && t < d
    ensures v / d == q
  {
    var x := v / d;
    assert v == x * d + v % d;
    if x > q { Apart(x, q, d); } else if x < q { Apart(q, x, d); }
  }

  lemma Apart(x: nat, y: nat, d: nat)
    requires x > y
    ensures x * d >= y * d + d
  {
    assert x * d == y * d + d + (x - y - 1) * d;
  }

  lemma NoPower(v: nat)
    ensures BitAt(v, 0) == (v % 2 == 1)
  {
  }

  /** A bit string starts with its highest bit. */
  lemma {:induction false} BitsAt(v: nat, n: nat, i: nat)
    requires i < n
    ensures BitsOf(v, n)[i] == BitAt(v, n - 1 - i)
  {
    if i == n - 1 {
      NoPower(v);
    } else {
      BitsAt(v / 2, n - 1, i);
      HalfDown(v, n - 1 - i);
    }
  }

  /** `Or`, `And` and the mask work bit by bit. */
  lemma {:induction false} WordsAt(a: nat, b: nat, n: nat, k: nat)
    ensures BitAt(Or(a, b), k) == (BitAt(a, k) || BitAt(b, k))
    ensures BitAt(And(a, b), k) == (BitAt(a, k) && BitAt(b, k))
    ensures BitAt(Low(a, n), k) == (k < n && BitAt(a, k))
  {
    hide BitAt;
    OrStep(a, b);
    AndStep(a, b);
    NoPower(a);
    NoPower(b);
    NoPower(Or(a, b));
    NoPower(And(a, b));
    NoPower(Low(a, n));
    if n > 0 { LowStep(a, n); }
    if k > 0 {
      HalfDown(a, k);
      HalfDown(b, k);
      HalfDown(Or(a, b), k);
      HalfDown(And(a, b), k);
      HalfDown(Low(a, n), k);
      WordsAt(a / 2, b / 2, if n > 0 then n - 1 else 0, k - 1);
      if n == 0 { NoBit(a); }
    }
  }

  // ----- shifts and masks

  lemma {:induction false} ShlPow(v: nat, n: nat)
    ensures Shl(v, n) == v * Pow2(n)
  {
    if n > 0 {
      ShlPow(v, n - 1);
      assert v * (2 * Pow2(n - 1)) == 2 * (v * Pow2(n - 1));
    }
  }

  lemma {:induction false} ShlAdd(v: nat, w: nat, n: nat)
    ensures Shl(v + w, n) == Shl(v, n) + Shl(w, n)
  {
    hide Shl;
    NoBit(v);
    NoBit(w);
    NoBit(v + w);
    if n > 0 {
      ShlStep(v, n);
      ShlStep(w, n);
      ShlStep(v + w, n);
      ShlAdd(v, w, n - 1);
    }
  }

  lemma {:induction false} ShlShl(v: nat, m: nat, n: nat)
    ensures Shl(Shl(v, m), n) == Shl(v, m + n)
  {
    hide Shl;
    NoBit(Shl(v, m));
    if n > 0 {
      ShlStep(Shl(v, m), n);
      ShlStep(v, m + n);
      ShlShl(v, m, n - 1);
    }
  }

  lemma {:induction false} ShlZero(n: nat)
    ensures Shl(0, n) == 0
  {
    if n > 0 { ShlZero(n - 1); }
  }

  /** A word is its part above bit `n`, shifted back, and its part below. */
  lemma {:induction false} SplitAt(v: nat, n: nat)
    ensures v == Shl(Shr(v, n), n) + Low(v, n)
    ensures Low(v, n) < Pow2(n)
  {
    hide Shl, Shr, Low, Pow2;
    NoBit(v);
    if n > 0 {
      SplitAt(v / 2, n - 1);
      ShrStep(v, n);
      ShlStep(Shr(v, n), n);
      LowStep(v, n);
      PowStep(n);
    }
  }

  lemma {:induction false} SplitUnique(h: nat, r: nat, n: nat)
    requires r < Pow2(n)
    ensures Shr(Shl(h, n) + r, n) == h && Low(Shl(h, n) + r, n) == r
  {
    hide Shl, Shr, Low, Pow2;
    NoBit(h);
    NoBit(h + r);
    if n > 0 {
      var v := Shl(h, n) + r;
      ShlStep(h, n);
      PowStep(n);
      assert v / 2 == Shl(h, n - 1) + r / 2 && v % 2 == r % 2;
      ShrStep(v, n);
      LowStep(v, n);
      SplitUnique(h, r / 2, n - 1);
    }
  }

  lemma LowFits(v: nat, n: nat)
    requires v < Pow2(n)
    ensures Low(v, n) == v && Shr(v, n) == 0
  {
    ShlZero(n);
    SplitUnique(0, v, n);
  }

  lemma {:induction false} ShrShr(v: nat, m: nat, n: nat)
    ensures Shr(Shr(v, m), n) == Shr(v, m + n)
  {
    hide Shr;
    NoBit(v);
    if m > 0 {
      ShrStep(v, m);
      ShrStep(v, m + n);
      ShrShr(v / 2, m - 1, n);
    }
  }

  /** The bits of `v` from position `m` up to `m + n`. */
  lemma {:induction false} LowShr(v: nat, m: nat, n: nat)
    ensures Shr(Low(v, m + n), m) == Low(Shr(v, m), n)
    ensures Low(Low(v, m + n), m) == Low(v, m)
  {
    hide Shr, Low;
    NoBit(v);
    NoBit(Low(v, n));
    NoBit(Low(v, m + n));
    if m > 0 {
      LowStep(v, m + n);
      ShrStep(Low(v, m + n), m);
      LowStep(Low(v, m + n), m);
      ShrStep(v, m);
      LowStep(v, m);
      LowShr(v / 2, m - 1, n);
    }
  }

  lemma {:induction false} LowShl(v: nat, m: nat, n: nat)
    ensures Low(Shl(v, m), m + n) == Shl(Low(v, n), m)
  {
    hide Shl, Low;
    NoBit(v);
    NoBit(Low(v, n));
    if m > 0 {
      ShlStep(v, m);
      ShlStep(Low(v, n), m);
      LowStep(Shl(v, m), m + n);
      LowShl(v, m - 1, n);
    }
  }

  lemma {:induction false} ShrBound(v: nat, k: nat, m: nat)
    requires v < Pow2(k + m)
    ensures Shr(v, k) < Pow2(m)
  {
    hide Shr, Pow2;
    NoBit(v);
    if k > 0 {
      ShrStep(v, k);
      PowStep(k + m);
      ShrBound(v / 2, k - 1, m);
    }
  }

  lemma {:induction false} LowAbove(h: nat, w: nat, m: nat, r: nat)
    requires w < Pow2(r)
    ensures Low(Shl(h, r) + w, m + r) == Shl(Low(h, m), r) + w
  {
    hide Shl, Low, Pow2;
    NoBit(h);
    NoBit(Low(h, m));
    if r > 0 {
      var v := Shl(h, r) + w;
      ShlStep(h, r);
      ShlStep(Low(h, m), r);
      PowStep(r);
      assert v / 2 == Shl(h, r - 1) + w / 2 && v % 2 == w % 2;
      LowStep(v, m + r);
      LowAbove(h, w / 2, m, r - 1);
    }
  }

  lemma {:induction false} PowSum(m: nat, n: nat)
    ensures Pow2(m + n) == Shl(Pow2(m), n)
  {
    hide Shl, Pow2;
    NoBit(Pow2(m));
    if n > 0 {
      ShlStep(Pow2(m), n);
      PowStep(m + n);
      PowSum(m, n - 1);
    }
  }

  lemma {:induction false} PowMono(m: nat, n: nat)
    requires m <= n
    ensures Pow2(m) <= Pow2(n)
  {
    if m < n { PowMono(m, n - 1); }
  }

  lemma {:induction false} ShlBound(v: nat, m: nat, n: nat)
    requires v < Pow2(m)
    ensures Shl(v, n) + Pow2(n) <= Pow2(m + n)
  {
    hide Shl, Pow2;
    NoBit(v);
    if n > 0 {
      ShlStep(v, n);
      PowStep(n);
      PowStep(m + n);
      ShlBound(v, m, n - 1);
    }
  }

  lemma Pow8()
    ensures Pow2(1) == 2 && Pow2(8) == 256
  {
    assert Pow2(4) == 16;
  }

  lemma Pow32()
    ensures Pow2(16) == 0x1_0000 && Pow2(24) == 0x100_0000 && Pow2(32) == 0x1_0000_0000
  {
    Pow8();
    assert Pow2(12) == 0x1000;
    assert Pow2(16) == 0x1_0000;
    assert Pow2(20) == 0x10_0000;
    assert Pow2(24) == 0x100_0000;
    assert Pow2(28) == 0x1000_0000;
  }

  lemma AndNone(a: nat)
    ensures And(a, 0) == 0
  {
  }

  /** A mask of `n` ones keeps the low bits. */
  lemma {:induction false} AndMask(a: nat, n: nat)
    ensures And(a, Pow2(n) - 1) == Low(a, n)
  {
    hide And, Low, Pow2;
    NoBit(a);
    if n > 0 {
      PowStep(n);
      assert (Pow2(n) - 1) / 2 == Pow2(n - 1) - 1 && (Pow2(n) - 1) % 2 == 1;
      AndMask(a / 2, n - 1);
      AndStep(a, Pow2(n) - 1);
      LowStep(a, n);
    } else {
      AndNone(a);
    }
  }

  /** The low bits are the remainder. */
  lemma LowMod(v: nat, n: nat)
    ensures v % Pow2(n) == Low(v, n)
  {
    hide Pow2, Low, Shl, Shr;
    SplitAt(v, n);
    ShlPow(Shr(v, n), n);
    SumMod(Shr(v, n), Pow2(n), Low(v, n));
  }

  lemma SumMod(k: nat, p: nat, r: nat)
    requires r < p
    ensures (k * p + r) % p == r
  {
    var v := k * p + r;
    var q, m := v / p, v % p;
    DivMod(v, p);
    var d := q - k;
    Minus(q, k, p);
    if d > 0 { Least(d, p); } else if d < 0 { Minus(0, d, p); Least(-d, p); }
  }

  lemma DivMod(v: nat, p: nat)
    requires p > 0
    ensures v == (v / p) * p + v % p && v % p < p
  {
  }

  lemma Minus(x: int, y: int, p: int)
    ensures (x - y) * p == x * p - y * p
  {
  }

  lemma Least(d: nat, p: nat)
    requires d > 0
    ensures d * p >= p
  {
    assert d * p == (d - 1) * p + p;
  }

  // ----- values of bit strings

  lemma {:induction false} ValueBound(b: seq<bool>)
    ensures Value(b) < Pow2(|b|)
  {
    if b != [] { ValueBound(b[..|b| - 1]); }
  }

  lemma {:induction false} ValueAppend(a: seq<bool>, b: seq<bool>)
    ensures Value(a + b) == Shl(Value(a), |b|) + Value(b)
  {
    if b == [] {
      assert a + b == a;
    } else {
      var c := b[..|b| - 1];
      assert (a + b)[..|a + b| - 1] == a + c;
      ValueAppend(a, c);
    }
  }

  lemma {:induction false} ValueOfBits(v: nat, n: nat)
    ensures Value(BitsOf(v, n)) == Low(v, n)
  {
    if n > 0 {
      var b := BitsOf(v, n);
      assert b[..|b| - 1] == BitsOf(v / 2, n - 1);
      ValueOfBits(v / 2, n - 1);
    }
  }

  lemma {:induction false} BitsOfValue(b: seq<bool>)
    ensures BitsOf(Value(b), |b|) == b
  {
    if b != [] { BitsOfValue(b[..|b| - 1]); }
  }

  /** Equal lengths and equal values make equal strings. */
  lemma ValueInjective(a: seq<bool>, b: seq<bool>)
    requires |a| == |b| && Value(a) == Value(b)
    ensures a == b
  {
    BitsOfValue(a);
    BitsOfValue(b);
  }

  lemma {:induction false} BitsSplit(v: nat, m: nat, n: nat)
    ensures BitsOf(v, m + n) == BitsOf(Shr(v, n), m) + BitsOf(v, n)
  {
    hide Shr;
    NoBit(v);
    if n > 0 {
      ShrStep(v, n);
      BitsSplit(v / 2, m, n - 1);
      assert BitsOf(v, m + n) == BitsOf(v / 2, m + n - 1) + [v % 2 == 1];
    } else {
      assert BitsOf(v, m) + [] == BitsOf(v, m);
    }
  }

  /** Only the low bits count. */
  lemma BitsLow(v: nat, n: nat)
    ensures BitsOf(Low(v, n), n) == BitsOf(v, n)
  {
    ValueOfBits(v, n);
    BitsOfValue(BitsOf(v, n));
  }

  // ----- or

  lemma {:induction false} OrZero(b: nat)
    ensures Or(0, b) == b && Or(b, 0) == b
  {
    if b > 0 { OrZero(b / 2); }
  }

  /** The part above and the part below bit `k` are combined separately. */
  lemma {:induction false} OrSplit(a: nat, b: nat, k: nat)
    ensures Or(Shl(a, k), b) == Shl(Or(a, Shr(b, k)), k) + Low(b, k)
  {
    hide Or, Shl, Shr, Low;
    NoBit(a);
    NoBit(b);
    NoBit(Or(a, Shr(b, k)));
    if k > 0 {
      ShlStep(a, k);
      ShrStep(b, k);
      LowStep(b, k);
      OrStep(Shl(a, k), b);
      ShlStep(Or(a, Shr(b, k)), k);
      OrSplit(a, b / 2, k - 1);
    }
  }

  /** Or of disjoint parts is a sum. */
  lemma OrDisjoint(a: nat, b: nat, k: nat)
    requires b < Pow2(k)
    ensures Or(Shl(a, k), b) == Shl(a, k) + b
  {
    OrSplit(a, b, k);
    LowFits(b, k);
    OrZero(a);
  }

  lemma {:induction false} OrShl(a: nat, b: nat, k: nat)
    ensures Or(Shl(a, k), Shl(b, k)) == Shl(Or(a, b), k)
  {
    hide Or, Shl;
    NoBit(a);
    NoBit(b);
    NoBit(Or(a, b));
    if k > 0 {
      ShlStep(a, k);
      ShlStep(b, k);
      OrStep(Shl(a, k), Shl(b, k));
      ShlStep(Or(a, b), k);
      OrShl(a, b, k - 1);
    }
  }

  lemma {:induction false} OrBound(a: nat, b: nat, n: nat)
    requires a < Pow2(n) && b < Pow2(n)
    ensures Or(a, b) < Pow2(n)
  {
    hide Or, Pow2;
    NoBit(0);
    if n > 0 {
      PowStep(n);
      OrStep(a, b);
      OrBound(a / 2, b / 2, n - 1);
    } else {
      OrZero(0);
    }
  }

  lemma {:induction false} LowOr(a: nat, b: nat, n: nat)
    ensures Low(Or(a, b), n) == Or(Low(a, n), Low(b, n))
  {
    hide Or, Low;
    NoBit(a);
    NoBit(b);
    NoBit(Or(a, b));
    if n > 0 {
      OrStep(a, b);
      LowStep(a, n);
      LowStep(b, n);
      LowStep(Or(a, b), n);
      OrStep(Low(a, n), Low(b, n));
      LowOr(a / 2, b / 2, n - 1);
    } else {
      OrZero(0);
    }
  }

  /** The bits of a sequence of bytes. */
  function Spread(d: seq<Byte>): (b: seq<bool>)
    ensures |b| == 8 * |d|
  {
    if d == [] then [] else BitsOf(d[0], 8) + Spread(d[1..])
  }

  lemma {:induction false} SpreadAppend(d: seq<Byte>, e: seq<Byte>)
    ensures Spread(d + e) == Spread(d) + Spread(e)
  {
    if d == [] {
      assert d + e == e;
    } else {
      assert (d + e)[1..] == d[1..] + e;
      SpreadAppend(d[1..], e);
    }
  }
}
