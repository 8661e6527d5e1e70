/**
 The bit-stream reader: bytes are loaded one at a time past the emulation
 prevention, and bits, Exp-Golomb codes and the end of the payload are read off.
 */
module BitReader {
  import opened Bits
  import opened Emulation
  import opened BitWriter

  class Reader {
    const data: seq<Byte>
    const detect: bool
    var pos: nat
    var bytesLeft: nat
    var curr: Byte
    var remaining: nat        // bits of `curr` still to be read
    var prev: nat             // the two bytes before
    var dropped: nat
    var usedBits: nat

    ghost predicate Valid()
      reads this
    {
      pos + bytesLeft <= |data| && remaining <= 8
    }

    /** The stored bytes not yet loaded. */
    ghost function Window(): seq<Byte>
      reads this
      requires Valid()
    {
      data[pos..pos + bytesLeft]
    }

    /** The payload bytes not yet loaded. */
    ghost function Ahead(): seq<Byte>
      reads this
      requires Valid()
    {
      Unescape(Window(), prev, detect)
    }

    /** The payload bits not yet read. */
    ghost function Rest(): (r: seq<bool>)
      reads this
      requires Valid()
      ensures |r| == remaining + 8 * |Ahead()|
    {
      BitsOf(curr, remaining) + Spread(Ahead())
    }

    /** The unread bytes do not end in a dangling escape. */
    ghost predicate Whole()
      reads this
      requires Valid()
    {
      Complete(Window(), prev, detect)
    }

    constructor (data: seq<Byte>, detect: bool)
      ensures Valid() && this.data == data && this.detect == detect
      ensures Rest() == Spread(Unescape(data, NO_BYTES, detect))
      ensures remaining == 0 && Window() == data && prev == NO_BYTES && usedBits == 0 && dropped == 0
    {
      this.data := data;
      this.detect := detect;
      pos := 0;
      bytesLeft := |data|;
      curr := 0;
      remaining := 0;
      prev := NO_BYTES;
      dropped := 0;
      usedBits := 0;
      new;
      assert data[0..|data|] == data;
    }

    /** Loads the next payload byte; the bits of the old one must have been taken. */
    method UpdateCurByte() returns (ok: bool)
      requires Valid()
      modifies this
      ensures Valid() && usedBits == old(usedBits)
      ensures ok <==> old(Ahead()) != []
      ensures pos + bytesLeft == old(pos + bytesLeft)
      ensures ok ==> bytesLeft < old(bytesLeft)
      ensures ok ==> remaining == 8 && old(Ahead()) == [curr] + Ahead() && Whole() == old(Whole())
      ensures !ok ==> remaining == old(remaining) && curr == old(curr) && Ahead() == [] && bytesLeft == 0
      ensures !ok ==> Ahead() == [] && bytesLeft == 0 && (old(bytesLeft) > 0 ==> old(bytesLeft) == 1 && !old(Whole()))
    {
      if bytesLeft < 1 { return false; }
      ghost var w := Window();
      if detect && data[pos] == 3 && prev == 0 {
        pos := pos + 1;
        bytesLeft := bytesLeft - 1;
        dropped := dropped + 1;
        prev := NO_BYTES;
        if bytesLeft < 1 { return false; }
        assert w[1] == data[pos];
      }
      curr := data[pos];
      pos := pos + 1;
      bytesLeft := bytesLeft - 1;
      remaining := 8;
      prev := Shift(prev, curr);
      assert Window() == w[|w| - bytesLeft..];
      return true;
    }

    /** Loads a byte on behalf of a read that has taken all of the old one. */
    method NextByte() returns (ok: bool)
      requires Valid()
      modifies this
      ensures Valid() && usedBits == old(usedBits) && pos + bytesLeft == old(pos + bytesLeft)
      ensures ok <==> old(remaining) < |old(Rest())|
      ensures ok ==> remaining == 8 && Whole() == old(Whole())
      ensures ok ==> old(Rest()) == BitsOf(old(curr), old(remaining)) + Rest()
      ensures !ok ==> remaining == old(remaining) && curr == old(curr) && Rest() == old(Rest())
    {
      hide Unescape, Complete, Spread, BitsOf;
      ok := UpdateCurByte();
      if ok { SpreadCons(curr, Ahead()); }
    }

    /** Takes `left` bits off the byte being read. */
    method Take(left: nat, n: nat)
      requires Valid() && left <= remaining
      modifies this`remaining, this`usedBits
      ensures Valid() && usedBits == old(usedBits) + n && remaining == old(remaining) - left && Whole() == old(Whole())
      ensures old(Rest()) == BitsOf(Shr(curr, remaining), left) + Rest() && |Rest()| == |old(Rest())| - left
    {
      hide Unescape, Spread, BitsOf, Shr;
      BitsSplit(curr, left, remaining - left);
      remaining := remaining - left;
      usedBits := usedBits + n;
    }

    /** Reads `n` bits, the first one the most significant; more than 31 are refused. */
    method ReadBits(n: nat) returns (ok: bool, out: nat)
      requires Valid()
      modifies this
      ensures Valid() && pos + bytesLeft == old(pos + bytesLeft)
      ensures ok <==> n <= 31 && n <= |old(Rest())|
      ensures ok ==> old(Rest()) == BitsOf(out, n) + Rest() && out < Pow2(n)
      ensures ok ==> usedBits == old(usedBits) + n && Whole() == old(Whole())
      ensures !ok ==> usedBits == old(usedBits) && EndOf(Rest(), old(Rest()))
      ensures n > 31 ==> Rest() == old(Rest())
    {
      hide Shl, Shr, Low, Or, BitsOf, Rest, Whole, Pow2, Gathering, EndOf;
      var left: nat := n;
      out := 0;
      ghost var h: nat, bits: seq<bool>, R := 0, [], Rest();
      NoZeros(R);
      if n > 31 {
        return false, 0;
      }
      NothingGathered(left);
      while remaining < left
        invariant Valid() && left <= n <= 31 && |bits| == n - left && |R| == |bits| + |Rest()|
        invariant usedBits == old(usedBits) && pos + bytesLeft == old(pos + bytesLeft) && Whole() == old(Whole())
        invariant R == bits + Rest()
        invariant Gathering(h, bits, out, left) && ((h == 0 && bits == []) || remaining == 8)
        decreases left, 8 - remaining
      {
        ok, out, left, h, bits := GatherByte(out, left, h, bits, R);
        if !ok {
          return false, out;
        }
      }
      GatherLast(h, bits, out, curr, left, remaining);
      out := Low(Or(out, Shr(curr, remaining - left)), n);
      ghost var S := Rest();
      Take(left, n);
      Regroup(R, bits, S, BitsOf(Shr(curr, remaining), left), Rest());
      return true, out;
    }

    /** One turn of the loop of `ReadBits`: all bits of the byte being read, and the next byte. */
    method GatherByte(word: nat, due: nat, ghost h: nat, ghost bits: seq<bool>, ghost R: seq<bool>)
      returns (ok: bool, out: nat, left: nat, ghost h': nat, ghost bits': seq<bool>)
      requires Valid() && remaining < due <= 31 && R == bits + Rest()
      requires Gathering(h, bits, word, due) && ((h == 0 && bits == []) || remaining == 8)
      modifies this
      ensures Valid() && usedBits == old(usedBits) && pos + bytesLeft == old(pos + bytesLeft)
      ensures ok <==> old(remaining) < |old(Rest())|
      ensures left == due - old(remaining) && |bits'| == |bits| + old(remaining)
      ensures ok ==> remaining == 8 && Whole() == old(Whole()) && R == bits' + Rest() && Gathering(h', bits', out, left)
      ensures !ok ==> EndOf(Rest(), R)
    {
      hide Shl, Low, Or, BitsOf, Rest, Whole, Gathering, EndOf;
      GatherStep(h, bits, word, due, curr, remaining);
      ghost var more, S := BitsOf(curr, remaining), Rest();
      h', bits' := Or(Shl(h, remaining), curr), bits + more;
      out := Or(word, Low(Shl(curr, due - remaining), 32));
      left := due - remaining;
      ok := NextByte();
      if ok { Regroup(R, bits, S, more, Rest()); } else { EndOfSum(bits, Rest()); }
    }

    /** Moves past `n` bits. */
    method SkipBits(n: nat) returns (ok: bool)
      requires Valid()
      modifies this
      ensures Valid() && pos + bytesLeft == old(pos + bytesLeft)
      ensures ok <==> n <= |old(Rest())|
      ensures ok ==> Rest() == old(Rest())[n..] && usedBits == old(usedBits) + n && Whole() == old(Whole())
      ensures !ok ==> usedBits == old(usedBits) && EndOf(Rest(), old(Rest()))
    {
      hide BitsOf, Rest, Whole;
      var left: nat := n;
      ghost var R := Rest();
      while remaining < left
        invariant Valid() && left <= n <= |R| + left && usedBits == old(usedBits)
        invariant pos + bytesLeft == old(pos + bytesLeft) && Whole() == old(Whole())
        invariant Rest() == R[n - left..]
        decreases left, 8 - remaining
      {
        left := left - remaining;
        var loaded := NextByte();
        if !loaded {
          return false;
        }
      }
      Take(left, n);
      return true;
    }

    /** Counts the zeros before the next one, and takes them and the one. */
    method LeadingZeros() returns (ok: bool, numBits: nat)
      requires Valid()
      modifies this
      ensures Valid() && pos + bytesLeft == old(pos + bytesLeft) && EndOf(Rest(), old(Rest()))
      ensures ok ==> old(Rest()) == Zeros(numBits) + [true] + Rest() && Whole() == old(Whole())
      ensures !ok ==> !StartsWithCode(old(Rest()))
    {
      hide BitsOf, Pow2, Zeros, StartsWithCode, Rest, Whole, EndOf;
      var count: int := -1;
      var bit := 0;
      ghost var R := Rest();
      NoZeros(R);
      while bit == 0
        invariant Valid() && pos + bytesLeft == old(pos + bytesLeft) && Whole() == old(Whole())
        invariant count >= -1 && (count == -1 ==> bit == 0)
        invariant R == (if bit == 0 then Zeros(count + 1) else Zeros(count) + [true]) + Rest() && EndOf(Rest(), R)
        decreases bit == 0, |Rest()|
      {
        ghost var S := Rest();
        ok, bit := ReadBits(1);
        if !ok {
          OnlyZeros(count + 1, S);
          EndTrans(Rest(), S, R);
          return false, 0;
        }
        OneBit(bit, S, Rest());
        ZerosMore(count + 1, bit, R, S, Rest());
        count := count + 1;
      }
      return true, count;
    }

    /** Reads an unsigned Exp-Golomb code: whatever code stands in front, and only that. */
    method ReadUe() returns (ok: bool, val: nat)
      requires Valid()
      modifies this
      ensures Valid() && pos + bytesLeft == old(pos + bytesLeft)
      ensures ok <==> StartsWithCode(old(Rest()))
      ensures ok ==> old(Rest()) == UeCode(val) + Rest() && val < 0xffff_ffff
      ensures ok ==> Whole() == old(Whole())
      ensures !ok ==> EndOf(Rest(), old(Rest()))
    {
      hide BitsOf, Pow2, UeCode, Zeros, StartsWithCode, Rest, Whole, EndOf;
      ghost var R := Rest();
      var got, numBits := LeadingZeros();
      if !got {
        return false, 0;
      }
      if numBits > 31 {
        FarOne(R, numBits, Rest());
        return false, 0;
      }
      ghost var S := Rest();
      ShlPow(1, numBits);
      val := Shl(1, numBits) - 1;
      var rest := 0;
      if numBits > 0 {
        got, rest := ReadBits(numBits);
        if !got {
          ShortRest(R, numBits, S);
          EndTrans(Rest(), S, R);
          return false, 0;
        }
        val := val + rest;
      } else {
        NoBits(S);
      }
      CodeFound(R, numBits, rest, S, Rest());
      return true, val;
    }

    /** Reads a signed value. */
    method ReadSe() returns (ok: bool, val: int)
      requires Valid()
      modifies this
      ensures Valid() && pos + bytesLeft == old(pos + bytesLeft)
      ensures ok <==> StartsWithCode(old(Rest()))
      ensures ok ==> old(Rest()) == SeCode(val) + Rest() && -0x8000_0000 < val < 0x8000_0000
      ensures forall k: nat {:trigger UeCode(k)} :: k < 0xffff_ffff && UeCode(k) <= old(Rest()) ==>
                ok && val == if k % 2 == 1 then (k + 1) / 2 else -(k / 2)
      ensures ok ==> Whole() == old(Whole())
      ensures !ok ==> EndOf(Rest(), old(Rest()))
    {
      hide Whole, Rest, UeCode, StartsWithCode;
      var ue: int;
      ok, ue := ReadUe();
      val := 0;
      if ok {
        if ue % 2 == 0 {
          val := -(ue / 2);
        } else {
          val := ue / 2 + 1;
        }
        assert SeNumber(val) == ue;
      }
      SameNumber(old(Rest()), ue);
    }

    /** Reads 32 bits in two steps; past 32 bits the two parts run into each other. */
    method ReadLongBits(n: nat) returns (ok: bool, out: nat)
      requires Valid()
      modifies this
      ensures Valid() && pos + bytesLeft == old(pos + bytesLeft)
      ensures ok <==> n <= 47 && n <= |old(Rest())|
      ensures ok ==> EndOf(Rest(), old(Rest())) && |Rest()| == |old(Rest())| - n
      ensures ok && n <= 32 ==> old(Rest()) == BitsOf(out, n) + Rest() && out < Pow2(n)
      ensures ok && n > 32 ==> out == Or(Shl(Value(old(Rest())[..16]), 16), Value(old(Rest())[16..n]))
    {
      hide Whole, Rest, Value, BitsOf, Shl, Low, Or, Pow2;
      ghost var R := Rest();
      if n < 32 {
        ok, out := ReadBits(n);
        return;
      }
      var high, low;
      ok, high := ReadBits(16);
      if !ok { return false, 0; }
      ghost var S := Rest();
      ok, low := ReadBits(n - 16);
      if !ok { return false, 0; }
      TwoParts(R, high, S, low, n, Rest());
      out := Or(Low(Shl(high, 16), 32), low);
    }

    constructor Copy(r: Reader)
      requires r.Valid()
      ensures Valid() && Rest() == r.Rest()
    {
      data := r.data;
      detect := r.detect;
      pos := r.pos;
      bytesLeft := r.bytesLeft;
      curr := r.curr;
      remaining := r.remaining;
      prev := r.prev;
      dropped := r.dropped;
      usedBits := r.usedBits;
    }

    /** The bits a read would return, read from a copy of the context. */
    method ShowBits(n: nat) returns (ok: bool, out: nat)
      requires Valid()
      ensures ok <==> n <= |Rest()| && n <= (if n < 32 then 31 else 47)
      ensures ok && n <= 32 ==> out == Value(Rest()[..n])
      ensures ok && n > 32 ==> out == Or(Shl(Value(Rest()[..16]), 16), Value(Rest()[16..n]))
    {
      hide Rest, Value, BitsOf, Shl, Low, Or, Pow2;
      var tmp := new Reader.Copy(this);
      if n < 32 {
        ok, out := tmp.ReadBits(n);
      } else {
        ok, out := tmp.ReadLongBits(n);
      }
      if ok && n <= 32 { FrontValue(Rest(), out, n, tmp.Rest()); }
    }

    /** Drops the zero bytes at the end of the data. */
    method StripZeros()
      requires Valid()
      modifies this`bytesLeft
      ensures Valid() && Window() == Stripped(old(Window())) && (bytesLeft > 0 ==> data[pos + bytesLeft - 1] != 0)
    {
      hide Stripped;
      ghost var w := Window();
      while bytesLeft > 0 && data[pos + bytesLeft - 1] == 0
        invariant Valid()
        invariant Stripped(Window()) == Stripped(w)
        decreases bytesLeft
      {
        StripStep(Window());
        assert Window()[..bytesLeft - 1] == data[pos..pos + bytesLeft - 1];
        bytesLeft := bytesLeft - 1;
      }
      StripEnd(Window());
    }

    /** Whether payload is left before the stop bit; zero bytes at the end are dropped first. */
    method HasMoreRbspData() returns (more: bool)
      requires Valid()
      modifies this
      ensures Valid()
      ensures var s := Stripped(old(Window()));
              if Complete(s, old(prev), detect) then more <==> MoreData(old(Rest()))
              else more <==> old(remaining) > 0 || |s| > 1
      ensures Stripped(old(Window())) == old(Window()) ==> pos + bytesLeft == old(pos + bytesLeft)
      ensures Stripped(old(Window())) == old(Window()) && old(Whole()) ==> Rest() == old(Rest()) && Whole()
    {
      hide Unescape, Complete, Spread, BitsOf, MoreData, Low, Stripped;
      StripBits(Window(), prev, detect, BitsOf(curr, remaining));
      StripZeros();
      ghost var R := Rest();
      FirstLoad(Window(), prev, detect);
      if remaining == 0 {
        NoMoreBits();
        var loaded := UpdateCurByte();
        if !loaded {
          NothingWaits(prev, detect);
          assert Window() == [];
          return false;
        }
        SpreadCons(curr, Ahead());
      }
      more := LookBehind();
    }

    /** The test once a byte is loaded: further bytes, or a one behind the first bit left. */
    method LookBehind() returns (more: bool)
      requires Valid() && remaining > 0
      requires bytesLeft > 0 ==> data[pos + bytesLeft - 1] != 0
      ensures if Whole() then more <==> MoreData(Rest()) else more
    {
      hide Unescape, Complete, Spread, BitsOf, MoreData, Low;
      if bytesLeft > 0 {
        if Whole() {
          LastDelivered(Window(), prev, detect);
          LastBit(BitsOf(curr, remaining), Ahead());
        }
        return true;
      }
      assert Window() == [];
      NothingWaits(prev, detect);
      StopBitOnly(curr, remaining);
      SpreadNone();
      return Low(curr, remaining - 1) != 0;
    }
  }

  /** A one behind the first bit. */
  ghost predicate MoreData(b: seq<bool>) {
    b != [] && HasOne(b[1..])
  }

  ghost predicate HasOne(b: seq<bool>) {
    exists i :: 0 <= i < |b| && b[i]
  }

  /** The data without the zero bytes at its end. */
  function Stripped(d: seq<Byte>): seq<Byte> {
    if d != [] && d[|d| - 1] == 0 then Stripped(d[..|d| - 1]) else d
  }

  /** Some code of a 32-bit number stands in front. */
  ghost predicate StartsWithCode(b: seq<bool>) {
    exists v: nat :: v < 0xffff_ffff && UeCode(v) <= b
  }

  /** `r` is a last part of `s`. */
  predicate EndOf<T(==)>(r: seq<T>, s: seq<T>) {
    |r| <= |s| && r == s[|s| - |r|..]
  }

  lemma SpreadCons(b: Byte, d: seq<Byte>)
    ensures Spread([b] + d) == BitsOf(b, 8) + Spread(d)
  {
    assert ([b] + d)[1..] == d;
  }

  lemma SpreadNone()
    ensures Spread([]) == []
  {
  }

  lemma Regroup(R: seq<bool>, b: seq<bool>, s: seq<bool>, c: seq<bool>, r: seq<bool>)
    requires R == b + s && s == c + r
    ensures R == (b + c) + r
  {
  }

  lemma EndOfSum(b: seq<bool>, r: seq<bool>)
    ensures EndOf(r, b + r)
  {
  }

  /** The output word holds the bits gathered so far, above `left` more, and nothing below. */
  ghost predicate Gathering(h: nat, bits: seq<bool>, out: nat, left: nat) {
    Low(h, |bits|) == Value(bits) && out == Low(Shl(h, left), 32)
  }

  lemma NothingGathered(n: nat)
    ensures Gathering(0, [], 0, n)
  {
    ShlZero(n);
    assert Pow2(32) > 0;
    LowFits(0, 32);
  }

  lemma GatherStep(h: nat, bits: seq<bool>, out: nat, left: nat, curr: Byte, r: nat)
    requires Gathering(h, bits, out, left) && r <= left
    requires (h == 0 && bits == []) || r == 8
    ensures Gathering(Or(Shl(h, r), curr), bits + BitsOf(curr, r), Or(out, Low(Shl(curr, left - r), 32)), left - r)
  {
    hide Low, Shl, Or, BitsOf, Value, Pow2;
    Pow8();
    Gather(h, bits, curr, r);
    OrBelow(h, curr, left, r);
  }

  /** The bits of `curr` join the gathered ones. */
  lemma Gather(h: nat, bits: seq<bool>, curr: nat, r: nat)
    requires Low(h, |bits|) == Value(bits)
    requires (h == 0 && bits == []) || curr < Pow2(r)
    ensures Low(Or(Shl(h, r), curr), |bits| + r) == Value(bits + BitsOf(curr, r))
  {
    hide *;
    ValueAppend(bits, BitsOf(curr, r));
    ValueOfBits(curr, r);
    if h == 0 && bits == [] {
      ShlZero(r);
      OrZero(curr);
      assert bits + BitsOf(curr, r) == BitsOf(curr, r);
    } else {
      OrDisjoint(h, curr, r);
      LowFits(curr, r);
      LowAbove(h, curr, |bits|, r);
    }
  }

  /** Or-ing below what is there already, in a 32-bit word. */
  lemma OrBelow(h: nat, curr: nat, left: nat, r: nat)
    requires r <= left
    ensures Or(Low(Shl(h, left), 32), Low(Shl(curr, left - r), 32)) == Low(Shl(Or(Shl(h, r), curr), left - r), 32)
  {
    hide *;
    LowOr(Shl(h, left), Shl(curr, left - r), 32);
    ShlShl(h, r, left - r);
    OrShl(Shl(h, r), curr, left - r);
  }

  /** The last part of a read: `left` bits off the top of what remains, the junk masked off. */
  lemma GatherLast(h: nat, bits: seq<bool>, word: nat, curr: Byte, left: nat, r: nat)
    requires left <= r <= 8 && |bits| + left <= 31
    requires Gathering(h, bits, word, left) && ((h == 0 && bits == []) || r == 8)
    ensures var n := |bits| + left;
            var out := Low(Or(word, Shr(curr, r - left)), n);
            out < Pow2(n) && BitsOf(out, n) == bits + BitsOf(Shr(curr, r - left), left)
  {
    hide Low, Shl, Shr, Or, BitsOf, Value, Pow2;
    var n := |bits| + left;
    var c := Shr(curr, r - left);
    if r == 8 {
      Pow8();
      ShrBound(curr, r - left, left);
    }
    Gather(h, bits, c, left);
    LowOr(Low(Shl(h, left), 32), c, n);
    LowOr(Shl(h, left), c, n);
    LowShr(Shl(h, left), n, 32 - n);
    SplitAt(Or(Low(Shl(h, left), 32), c), n);
    BitsOfValue(bits + BitsOf(c, left));
  }

  lemma NoZeros(b: seq<bool>)
    ensures Zeros(0) + b == b && EndOf(b, b)
  {
  }

  lemma NoBits(b: seq<bool>)
    ensures BitsOf(0, 0) + b == b && Pow2(0) == 1
  {
  }

  lemma EndTrans<T>(a: seq<T>, b: seq<T>, c: seq<T>)
    requires EndOf(a, b) && EndOf(b, c)
    ensures EndOf(a, c)
  {
  }

  lemma OneBit(v: nat, s: seq<bool>, r: seq<bool>)
    requires s == BitsOf(v, 1) + r && v < Pow2(1)
    ensures v <= 1 && s == [v == 1] + r
  {
    Pow8();
    assert BitsOf(v, 1) == [v == 1];
  }

  lemma ZerosMore(n: nat, bit: nat, R: seq<bool>, s: seq<bool>, r: seq<bool>)
    requires R == Zeros(n) + s && s == [bit == 1] + r && bit <= 1
    ensures R == (if bit == 0 then Zeros(n + 1) else Zeros(n) + [true]) + r
    ensures EndOf(r, R) && |r| < |s|
  {
    if bit == 0 { assert Zeros(n + 1) == Zeros(n) + [false]; }
  }

  // ----- codes in front of a bit string

  /** A number with `k` bits behind its leading one. */
  lemma LeadingOne(k: nat, r: nat)
    requires r < Pow2(k)
    ensures BitLength(Pow2(k) + r) == k + 1 && BitsOf(Pow2(k) + r, k + 1) == [true] + BitsOf(r, k)
  {
    var v := Pow2(k) + r;
    LengthMono(v, k + 1);
    if BitLength(v) <= k { PowMono(BitLength(v), k); }
    ShlPow(1, k);
    SplitUnique(1, r, k);
    BitsSplit(v, 1, k);
    BitsLow(v, k);
    assert BitsOf(1, 1) == [true];
  }

  /** The code of 2^k - 1 + r: k zeros, a one, and r in k bits. */
  lemma CodeForm(k: nat, r: nat)
    requires r < Pow2(k)
    ensures UeCode(Pow2(k) - 1 + r) == Zeros(k) + [true] + BitsOf(r, k)
  {
    LeadingOne(k, r);
    assert Pow2(k) - 1 + r + 1 == Pow2(k) + r;
  }

  /** Where a code has its one, and how long it is. */
  lemma CodeAt(R: seq<bool>, v: nat)
    requires UeCode(v) <= R
    ensures BitLength(v + 1) > 0
    ensures var k := BitLength(v + 1) - 1;
            2 * k < |R| && R[k] && (forall i :: 0 <= i < k ==> !R[i]) && (v < 0xffff_ffff ==> k <= 31)
  {
    hide Shl, BitsOf, UeCode, Zeros;
    var k := BitLength(v + 1) - 1;
    CodeForm(k, v + 1 - Pow2(k));
    if v < 0xffff_ffff {
      Pow32();
      LengthMono(v + 1, 32);
    }
    OneAt(R, k, BitsOf(v + 1 - Pow2(k), k));
  }

  lemma OneAt(R: seq<bool>, k: nat, s: seq<bool>)
    requires Zeros(k) + [true] + s <= R
    ensures k < |R| && R[k] && forall i :: 0 <= i < k ==> !R[i]
  {
    var c := Zeros(k) + [true] + s;
    assert c[k] && forall i :: 0 <= i < k ==> !c[i];
    assert forall i :: 0 <= i < |c| ==> c[i] == R[i];
  }

  /** No two codes stand in front of the same string. */
  lemma CodesPrefixFree(b: seq<bool>, v: nat, w: nat)
    requires UeCode(v) <= b && UeCode(w) <= b
    ensures v == w
  {
    hide UeCode;
    CodeAt(b, v);
    CodeAt(b, w);
    SameLengthCodes(b, v, w);
  }

  /** What stands in front of the rest is the code of one number only. */
  lemma SameNumber(b: seq<bool>, v: int)
    ensures forall k: nat {:trigger UeCode(k)} :: k < 0xffff_ffff && UeCode(k) <= b ==>
              StartsWithCode(b) && (v >= 0 && UeCode(v) <= b ==> v == k)
  {
    hide UeCode;
    forall k: nat | k < 0xffff_ffff && UeCode(k) <= b && v >= 0 && UeCode(v) <= b ensures v == k {
      CodesPrefixFree(b, v, k);
    }
  }

  lemma SameLengthCodes(b: seq<bool>, v: nat, w: nat)
    requires UeCode(v) <= b && UeCode(w) <= b && BitLength(v + 1) == BitLength(w + 1)
    ensures v == w
  {
    hide BitsOf;
    var n := BitLength(v + 1);
    assert UeCode(v) == UeCode(w);
    assert BitsOf(v + 1, n) == UeCode(v)[|Zeros(n - 1)|..] == UeCode(w)[|Zeros(n - 1)|..] == BitsOf(w + 1, n);
    ValueOfBits(v + 1, n);
    ValueOfBits(w + 1, n);
    LowFits(v + 1, n);
    LowFits(w + 1, n);
  }

  /** A code has its one among the first 32 bits, and as many bits behind it as zeros before. */
  lemma NoCode(R: seq<bool>)
    requires forall k :: 0 <= k <= 31 && 2 * k < |R| && R[k] ==> exists i :: 0 <= i < k && R[i]
    ensures !StartsWithCode(R)
  {
    hide UeCode;
    if StartsWithCode(R) {
      var v: nat :| v < 0xffff_ffff && UeCode(v) <= R;
      CodeAt(R, v);
    }
  }

  lemma OnlyZeros(n: nat, s: seq<bool>)
    requires s == []
    ensures !StartsWithCode(Zeros(n) + s)
  {
    hide UeCode;
    NoCode(Zeros(n) + s);
  }

  lemma FarOne(R: seq<bool>, k: nat, s: seq<bool>)
    requires R == Zeros(k) + [true] + s && k > 31
    ensures !StartsWithCode(R) && EndOf(s, R)
  {
    hide UeCode;
    assert forall i :: 0 <= i < k ==> !R[i];
    NoCode(R);
  }

  lemma ShortRest(R: seq<bool>, k: nat, s: seq<bool>)
    requires R == Zeros(k) + [true] + s && |s| < k
    ensures !StartsWithCode(R) && EndOf(s, R)
  {
    hide UeCode;
    assert R[k] && forall i :: 0 <= i < k ==> !R[i];
    NoCode(R);
  }

  lemma CodeFound(R: seq<bool>, k: nat, rest: nat, s: seq<bool>, r: seq<bool>)
    requires R == Zeros(k) + [true] + s && k <= 31
    requires s == BitsOf(rest, k) + r && rest < Pow2(k)
    ensures var v := Shl(1, k) - 1 + rest;
            0 <= v < 0xffff_ffff && R == UeCode(v) + r && StartsWithCode(R)
  {
    hide UeCode, Shl, Pow2, Zeros, BitsOf, StartsWithCode;
    ShlPow(1, k);
    CodeForm(k, rest);
    Pow32();
    PowMono(k + 1, 32);
    PowStep(k + 1);
    var v := Shl(1, k) - 1 + rest;
    assert R == Zeros(k) + [true] + BitsOf(rest, k) + r;
    InFront(R, v, r);
  }

  lemma InFront(R: seq<bool>, v: nat, r: seq<bool>)
    requires R == UeCode(v) + r && v < 0xffff_ffff
    ensures StartsWithCode(R)
  {
    hide UeCode;
    assert UeCode(v) <= R;
  }

  /** A string read as 16 bits and the rest. */
  lemma TwoParts(R: seq<bool>, high: nat, S: seq<bool>, low: nat, n: nat, T: seq<bool>)
    requires n >= 32 && R == BitsOf(high, 16) + S && S == BitsOf(low, n - 16) + T
    requires high < Pow2(16) && low < Pow2(n - 16)
    ensures EndOf(T, R) && |T| == |R| - n
    ensures high == Value(R[..16]) && low == Value(R[16..n])
    ensures Low(Shl(high, 16), 32) == Shl(high, 16)
    ensures n == 32 ==> var out := Or(Shl(high, 16), low); R == BitsOf(out, 32) + T && out < Pow2(32)
  {
    hide Value, BitsOf, Shl, Low, Or, Pow2;
    assert R[..16] == BitsOf(high, 16) && R[16..n] == BitsOf(low, n - 16);
    ValueOfBits(high, 16);
    LowFits(high, 16);
    ValueOfBits(low, n - 16);
    LowFits(low, n - 16);
    LowShl(high, 16, 16);
    if n == 32 {
      OrDisjoint(high, low, 16);
      SplitUnique(high, low, 16);
      BitsSplit(Shl(high, 16) + low, 16, 16);
      BitsLow(Shl(high, 16) + low, 16);
      ShlBound(high, 16, 16);
    }
  }

  lemma FrontValue(r: seq<bool>, v: nat, n: nat, t: seq<bool>)
    requires r == BitsOf(v, n) + t && v < Pow2(n)
    ensures v == Value(r[..n])
  {
    hide Value, BitsOf;
    ValueOfBits(v, n);
    LowFits(v, n);
    assert r[..n] == BitsOf(v, n);
  }

  // ----- the end of the payload

  lemma StripStep(d: seq<Byte>)
    requires d != [] && d[|d| - 1] == 0
    ensures Stripped(d) == Stripped(d[..|d| - 1])
  {
  }

  lemma StripEnd(d: seq<Byte>)
    requires d == [] || d[|d| - 1] != 0
    ensures Stripped(d) == d
  {
  }

  /** A zero byte at the end is delivered as one. */
  lemma {:induction false} ZeroDelivered(d: seq<Byte>, p: nat, detect: bool)
    requires Complete(d, p, detect)
    ensures Unescape(d + [0], p, detect) == Unescape(d, p, detect) + [0] && Complete(d + [0], p, detect)
    decreases |d|
  {
    if d == [] {
      assert [0][1..] == [];
    } else if IsEscape(d[0], p, detect) {
      assert (d + [0])[2..] == d[2..] + [0];
      ZeroDelivered(d[2..], Shift(NO_BYTES, d[1]), detect);
    } else {
      assert (d + [0])[1..] == d[1..] + [0];
      ZeroDelivered(d[1..], Shift(p, d[0]), detect);
    }
  }

  /** Dropping the zero bytes keeps what is delivered before them. */
  lemma {:induction false} StripLess(d: seq<Byte>, p: nat, detect: bool)
    ensures |Stripped(d)| <= |d|
    ensures Complete(Stripped(d), p, detect) ==> Complete(d, p, detect)
  {
    if d != [] && d[|d| - 1] == 0 {
      var e := d[..|d| - 1];
      StripLess(e, p, detect);
      assert d == e + [0];
      if Complete(e, p, detect) { ZeroDelivered(e, p, detect); }
    }
  }

  /** The bits dropped with the zero bytes are zeros. */
  lemma {:induction false} StripBits(d: seq<Byte>, p: nat, detect: bool, b: seq<bool>)
    ensures Complete(Stripped(d), p, detect) ==>
              (MoreData(b + Spread(Unescape(d, p, detect))) <==> MoreData(b + Spread(Unescape(Stripped(d), p, detect))))
  {
    hide MoreData, Unescape, Complete, Spread;
    if d != [] && d[|d| - 1] == 0 {
      var e := d[..|d| - 1];
      StripBits(e, p, detect, b);
      StripLess(e, p, detect);
      assert d == e + [0];
      if Complete(Stripped(d), p, detect) {
        ZeroDelivered(e, p, detect);
        var u := Unescape(e, p, detect);
        SpreadAppend(u, [0]);
        SpreadZero();
        assert b + Spread(u + [0]) == (b + Spread(u)) + Zeros(8);
        MoreZeros(b + Spread(u), 8);
      }
    }
  }

  lemma SpreadZero()
    ensures Spread([0]) == Zeros(8)
  {
    BitsOfZero(8);
    SpreadCons(0, []);
    SpreadNone();
    assert [0 as Byte] + [] == [0];
    assert Zeros(8) + [] == Zeros(8);
  }

  lemma HasOneConcat(a: seq<bool>, b: seq<bool>)
    ensures HasOne(a + b) <==> HasOne(a) || HasOne(b)
  {
    var c := a + b;
    if HasOne(a) {
      var i :| 0 <= i < |a| && a[i];
      assert c[i];
    }
    if HasOne(b) {
      var i :| 0 <= i < |b| && b[i];
      assert c[|a| + i];
    }
    if HasOne(c) {
      var i :| 0 <= i < |c| && c[i];
      assert if i < |a| then a[i] else b[i - |a|];
    }
  }

  lemma ZerosHaveNone(n: nat)
    ensures !HasOne(Zeros(n))
  {
  }

  lemma MoreZeros(b: seq<bool>, n: nat)
    ensures MoreData(b + Zeros(n)) <==> MoreData(b)
  {
    hide HasOne;
    var c := b + Zeros(n);
    if b != [] {
      assert c[1..] == b[1..] + Zeros(n);
      HasOneConcat(b[1..], Zeros(n));
      ZerosHaveNone(n);
    } else if n > 0 {
      assert c[1..] == Zeros(n - 1);
      ZerosHaveNone(n - 1);
    }
  }

  /** When the first load fails, and when a dangling escape is all there is. */
  lemma FirstLoad(d: seq<Byte>, p: nat, detect: bool)
    ensures !Complete(d, p, detect) ==> (Unescape(d, p, detect) != [] <==> |d| > 1)
    ensures Complete([], p, detect)
  {
  }

  lemma NoMoreBits()
    ensures forall v: nat :: BitsOf(v, 0) == []
    ensures Spread([]) == [] && !MoreData([])
    ensures forall b: seq<bool> :: [] + b == b
  {
  }

  lemma NothingWaits(p: nat, detect: bool)
    ensures Complete([], p, detect) && Unescape([], p, detect) == []
  {
  }

  /** A last byte that is not dangling is delivered last. */
  lemma {:induction false} LastDelivered(d: seq<Byte>, p: nat, detect: bool)
    requires d != [] && Complete(d, p, detect)
    ensures var u := Unescape(d, p, detect); u != [] && u[|u| - 1] == d[|d| - 1]
    decreases |d|
  {
    if IsEscape(d[0], p, detect) {
      if |d| > 2 { LastDelivered(d[2..], Shift(NO_BYTES, d[1]), detect); }
    } else if |d| > 1 {
      LastDelivered(d[1..], Shift(p, d[0]), detect);
    }
  }

  /** Some bit is set exactly when the value is not zero. */
  lemma {:induction false} AnyBit(v: nat, n: nat)
    ensures Low(v, n) != 0 <==> HasOne(BitsOf(v, n))
  {
    if n > 0 {
      hide HasOne;
      AnyBit(v / 2, n - 1);
      HasOneConcat(BitsOf(v / 2, n - 1), [v % 2 == 1]);
      OneOf(v % 2 == 1);
    }
  }

  lemma OneOf(x: bool)
    ensures HasOne([x]) <==> x
  {
    if x { assert [x][0]; }
  }

  /** A last byte that is not zero has a one, behind the bits of the byte being read. */
  lemma LastBit(b: seq<bool>, u: seq<Byte>)
    requires b != [] && u != [] && u[|u| - 1] != 0
    ensures MoreData(b + Spread(u))
  {
    hide Spread, BitsOf, Low, HasOne;
    var c, x := u[..|u| - 1], u[|u| - 1];
    assert u == c + [x];
    SpreadAppend(c, [x]);
    SpreadCons(x, []);
    SpreadNone();
    assert [x] + [] == [x] && BitsOf(x, 8) + [] == BitsOf(x, 8);
    Pow8();
    LowFits(x, 8);
    AnyBit(x, 8);
    HasOneConcat(Spread(c), BitsOf(x, 8));
    assert (b + Spread(u))[1..] == b[1..] + Spread(u);
    HasOneConcat(b[1..], Spread(u));
  }

  /** In the last byte, payload is left when a one stands behind the first available bit. */
  lemma StopBitOnly(v: nat, r: nat)
    requires r > 0
    ensures MoreData(BitsOf(v, r) + []) <==> Low(v, r - 1) != 0
  {
    hide BitsOf, Low, HasOne;
    BitsSplit(v, 1, r - 1);
    AnyBit(v, r - 1);
    assert (BitsOf(v, r) + [])[1..] == BitsOf(v, r - 1);
  }
}
