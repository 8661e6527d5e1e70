/**
 The bit-stream writer: bits gather at the top of a 32-bit word, whole bytes go
 to the stream with emulation prevention, and Exp-Golomb codes are put as bits.
 */
module BitWriter {
  import opened Bits
  import opened Emulation

  // ----- what a sequence of bits is stored as

  /** The whole bytes of a bit string. */
  function Pack(raw: seq<bool>): (d: seq<Byte>)
    ensures |d| == |raw| / 8
  {
    seq(|raw| / 8, i requires 0 <= i < |raw| / 8 => ByteAt(raw, i))
  }

  function ByteAt(raw: seq<bool>, i: nat): Byte
    requires 8 * i + 8 <= |raw|
  {
    ValueBound(raw[8 * i..8 * i + 8]);
    Pow8();
    Value(raw[8 * i..8 * i + 8])
  }

  /** The bits of the whole bytes. */
  function Full(raw: seq<bool>): (f: seq<bool>)
    ensures |f| == 8 * (|raw| / 8) && f <= raw
  {
    raw[..8 * (|raw| / 8)]
  }

  /** The bits behind the last whole byte. */
  function Tail(raw: seq<bool>): (t: seq<bool>)
    ensures |t| == |raw| % 8 && raw == Full(raw) + t
  {
    raw[8 * (|raw| / 8)..]
  }

  /**
   The bits after `len` more bits of the value `val` were or-ed in behind `raw`:
   for a value that fits this is an append, a wider value runs into the bits
   that still wait for their byte.
   */
  function Merged(raw: seq<bool>, val: nat, len: nat): seq<bool> {
    var n := |Tail(raw)| + len;
    Full(raw) + BitsOf(Or(Shl(Value(Tail(raw)), len), Low(val, n)), n)
  }

  lemma TailMerged(t: seq<bool>, val: nat, len: nat)
    requires Fits(val, len)
    ensures BitsOf(Or(Shl(Value(t), len), Low(val, |t| + len)), |t| + len) == t + BitsOf(val, len)
  {
    hide Shl, Shr, Low, Or, Value, BitsOf, Pow2;
    PowMono(len, |t| + len);
    LowFits(val, |t| + len);
    OrDisjoint(Value(t), val, len);
    LowFits(val, len);
    ValueAppend(t, BitsOf(val, len));
    ValueOfBits(val, len);
    BitsOfValue(t + BitsOf(val, len));
  }

  lemma MergedFits(raw: seq<bool>, val: nat, len: nat)
    requires Fits(val, len)
    ensures Merged(raw, val, len) == raw + BitsOf(val, len)
  {
    hide Shl, Shr, Low, Or, Value, BitsOf, Pow2;
    TailMerged(Tail(raw), val, len);
    assert Full(raw) + (Tail(raw) + BitsOf(val, len)) == (Full(raw) + Tail(raw)) + BitsOf(val, len);
  }

  /** Whole bytes do not change when bits follow them. */
  lemma PackPrefix(raw: seq<bool>, more: seq<bool>)
    requires Full(raw) <= more
    ensures |raw| / 8 <= |more| / 8 && Pack(more)[..|raw| / 8] == Pack(raw)
  {
    forall i | 0 <= i < |raw| / 8 ensures Pack(more)[i] == Pack(raw)[i] {
      assert more[8 * i..8 * i + 8] == Full(raw)[8 * i..8 * i + 8] == raw[8 * i..8 * i + 8];
    }
  }

  // ----- the word

  /** Bits kept at the top of a 32-bit word. */
  function Word(b: seq<bool>): nat
    requires |b| <= 32
  {
    Shl(Value(b), 32 - |b|)
  }

  /** Or-ing a shifted value into the word is the merge of the bit string. */
  lemma WordPut(t: seq<bool>, val: nat, len: nat)
    requires |t| + len <= 32
    ensures var n := |t| + len;
            Or(Word(t), Low(Shl(val, 32 - n), 32)) == Word(BitsOf(Or(Shl(Value(t), len), Low(val, n)), n))
  {
    hide Shl, Shr, Low, Or, Value, BitsOf, Pow2;
    var n := |t| + len;
    var m := 32 - n;
    LowShl(val, m, n);
    ShlShl(Value(t), len, m);
    OrShl(Shl(Value(t), len), Low(val, n), m);
    ValueBound(t);
    ShlBound(Value(t), |t|, len);
    SplitAt(val, n);
    var x := Or(Shl(Value(t), len), Low(val, n));
    OrBound(Shl(Value(t), len), Low(val, n), n);
    ValueOfBits(x, n);
    LowFits(x, n);
  }

  /** The first `k` whole bytes. */
  function Bytes(raw: seq<bool>, k: nat): seq<Byte>
    requires k <= |raw| / 8
  {
    Pack(raw)[..k]
  }

  /** The bits from byte `k` on. */
  function From(raw: seq<bool>, k: nat): (b: seq<bool>)
    requires 8 * k <= |raw|
    ensures |b| == |raw| - 8 * k
  {
    raw[8 * k..]
  }

  /** The top byte of the word is the first byte of its bits; shifting drops it. */
  lemma WordTake(b: seq<bool>)
    requires 8 <= |b| <= 32
    ensures Shr(Word(b), 24) == Value(b[..8]) && Low(Shl(Word(b), 8), 32) == Word(b[8..])
  {
    hide Shl, Shr, Low, Value, Pow2;
    var m := 32 - |b|;
    assert b == b[..8] + b[8..];
    var h, r := Value(b[..8]), Value(b[8..]);
    ValueAppend(b[..8], b[8..]);
    ShlAdd(Shl(h, |b| - 8), r, m);
    ShlShl(h, |b| - 8, m);
    ValueBound(b[8..]);
    ShlBound(r, |b| - 8, m);
    SplitUnique(h, Shl(r, m), 24);
    LowShl(Word(b), 8, 24);
    ShlShl(r, m, 8);
  }

  /** Every byte but the last was stored while the count was within `size`, or the writer stopped. */
  function StoredBefore(raw: seq<bool>): nat {
    var d := Pack(raw);
    if d == [] then 0 else |Escape(d[..|d| - 1], 0)|
  }

  // ----- Exp-Golomb codes (ITU-T H.264, section 9.1)

  function BitLength(v: nat): (n: nat)
    ensures v < Pow2(n)
    ensures n > 0 ==> Pow2(n - 1) <= v
  {
    if v == 0 then 0 else 1 + BitLength(v / 2)
  }

  function Zeros(n: nat): (z: seq<bool>)
    ensures |z| == n
  {
    seq(n, _ => false)
  }

  /** The code of `v`: as many zeros as bits follow the leading one of v + 1. */
  function UeCode(v: nat): seq<bool> {
    var n := BitLength(v + 1);
    Zeros(n - 1) + BitsOf(v + 1, n)
  }

  /** The code number of a signed value (section 9.1.1). */
  function SeNumber(v: int): nat {
    if v > 0 then 2 * v - 1 else -2 * v
  }

  function SeCode(v: int): seq<bool> {
    UeCode(SeNumber(v))
  }

  lemma {:induction false} BitsOfZero(n: nat)
    ensures BitsOf(0, n) == Zeros(n)
  {
    if n > 0 { BitsOfZero(n - 1); }
  }

  /** A number padded to `m` more bits has zeros in front. */
  lemma BitsPadded(v: nat, m: nat, n: nat)
    requires v < Pow2(n)
    ensures BitsOf(v, m + n) == Zeros(m) + BitsOf(v, n)
  {
    BitsSplit(v, m, n);
    LowFits(v, n);
    BitsOfZero(m);
  }

  /** `buffer` is the caller's `size` bytes and the two bytes of memory behind them. */
  class Writer {
    const buffer: array<Byte>
    const size: nat
    var byteCnt: nat
    var byteBuffer: nat
    var bufferedBits: nat
    var zeroBytes: nat
    var overflow: bool
    var emulCnt: nat
    ghost var raw: seq<bool>        // the bits put so far
    ghost var done: nat             // whole bytes of them that were stored

    /** All whole bytes are stored and the word has the rest. */
    ghost predicate Synced()
      reads this
    {
      done == |raw| / 8 && bufferedBits == |raw| % 8 && byteBuffer == Word(Tail(raw))
    }

    /** The status is raised exactly when a byte was due past the limit. */
    ghost predicate Valid()
      reads this, buffer
    {
      Sound() && (overflow <==> StoredBefore(raw) > size)
    }

    ghost predicate Sound()
      reads this, buffer
    {
      && size + 2 <= buffer.Length
      && byteCnt <= size + 2
      && done <= |raw| / 8 && Stored(Bytes(raw, done))
      && bufferedBits < 8
      && zeroBytes <= 2
      && (overflow ==> byteCnt > size)
      && (!overflow ==> Synced())
    }

    constructor (size: nat)
      ensures Valid() && fresh(buffer) && this.size == size && raw == [] && !overflow && byteCnt == 0
    {
      buffer := new Byte[size + 2];
      this.size := size;
      byteCnt := 0;
      overflow := false;
      byteBuffer := 0;
      bufferedBits := 0;
      zeroBytes := 0;
      emulCnt := 0;
      raw := [];
      done := 0;
      new;
      ShlZero(32);
    }

    /** Overflow or not, the stored bytes are the first ones of the escaped payload. */
    lemma StoredPrefix()
      requires Valid()
      ensures buffer[..byteCnt] <= Escape(Pack(raw), 0)
      ensures !overflow ==> buffer[..byteCnt] == Escape(Pack(raw), 0)
    {
      var d := Pack(raw);
      assert d == Bytes(raw, done) + d[done..];
      EscapeConcat(Bytes(raw, done), d[done..], 0);
    }

    /** The stored bytes of every writer hold no start code. */
    lemma StoredHarmless(i: nat)
      requires Valid() && i + 2 < byteCnt
      ensures |Marks(Bytes(raw, done), 0)| == byteCnt && Harmless(buffer[..byteCnt], Marks(Bytes(raw, done), 0), i)
    {
      EscapeHarmless(Bytes(raw, done), 0, i);
    }

    /** An inserted byte is a 3 behind two zero bytes, and in front of a byte below 4. */
    lemma StoredDue(i: nat)
      requires Valid() && i < byteCnt && Marks(Bytes(raw, done), 0)[i]
      ensures i >= 2 && buffer[i - 2] == 0 && buffer[i - 1] == 0 && buffer[i] == 3 && i + 1 < byteCnt && buffer[i + 1] < 4
    {
      EscapeDue(Bytes(raw, done), 0, i);
      assert buffer[..byteCnt] == Escape(Bytes(raw, done), 0);
    }

    /**
     Bytes are stored behind the caller's `size` exactly when the escaped payload is
     longer; the status stays clear then exactly while its last byte was due within.
     */
    lemma PastLimitIff()
      requires Valid()
      ensures byteCnt > size <==> |Escape(Pack(raw), 0)| > size
      ensures byteCnt > size && !overflow <==> StoredBefore(raw) <= size < |Escape(Pack(raw), 0)|
      ensures byteCnt <= size + 2
    {
      hide Escape;
      StoredPrefix();
      BeforeLast(raw);
    }

    /** Refuses, and records the refusal, once the count is past the limit. */
    method Status() returns (ok: bool)
      modifies this`overflow
      ensures ok == (byteCnt <= size) && overflow == (old(overflow) || !ok)
    {
      if byteCnt > size {
        overflow := true;
        return false;
      }
      return true;
    }

    /** Stores one byte of the payload, behind an escape where one is due. */
    method StoreByte(b: Byte)
      requires byteCnt + 2 <= buffer.Length && zeroBytes <= 2
      modifies this`byteCnt, this`zeroBytes, this`emulCnt, buffer
      ensures byteCnt == old(byteCnt) + |Emit(old(zeroBytes), b)| <= buffer.Length
      ensures buffer[..byteCnt] == old(buffer[..byteCnt]) + Emit(old(zeroBytes), b)
      ensures zeroBytes == CountZeros(old(zeroBytes), b) && zeroBytes <= 2
      ensures emulCnt == old(emulCnt) + |Emit(old(zeroBytes), b)| - 1
      ensures byteCnt == old(byteCnt) + (if old(zeroBytes) == 2 && b < 4 then 2 else 1)
      ensures buffer[byteCnt - 1] == b && (old(zeroBytes) == 2 && b < 4 ==> buffer[old(byteCnt)] == 3)
    {
      var stream := byteCnt;
      var zeros := zeroBytes;
      buffer[stream] := b;
      if zeros == 2 && buffer[stream] < 4 {
        buffer[stream] := 3;
        stream := stream + 1;
        buffer[stream] := b;
        zeros := 0;
        emulCnt := emulCnt + 1;
      }
      if buffer[stream] == 0 {
        zeros := zeros + 1;
      } else {
        zeros := 0;
      }
      zeroBytes := zeros;
      byteCnt := stream + 1;
    }

    /** The stream holds exactly the bytes `d`, escaped. */
    ghost predicate Stored(d: seq<Byte>)
      reads this, buffer
      requires byteCnt <= buffer.Length
    {
      buffer[..byteCnt] == Escape(d, 0) && zeroBytes == ZerosAfter(d, 0) && emulCnt == Inserted(d, 0)
    }

    /** Takes the top byte off the word. */
    static method TakeByte(word: nat, ghost R: seq<bool>, ghost k: nat) returns (b: Byte, rest: nat)
      requires 8 <= |R| - 8 * k <= 32 && word == Word(From(R, k))
      ensures rest == Word(From(R, k + 1)) && NextBytes(R, k, b)
    {
      NextByte(R, k);
      b := Shr(word, 24);
      rest := Low(Shl(word, 8), 32);
    }

    /** `k` bytes are stored and the rest of the bits is in the word. */
    ghost predicate Draining(k: nat, bits: nat, word: nat)
      reads this, buffer
      requires byteCnt <= buffer.Length
    {
      k <= |raw| / 8 && bits == |raw| - 8 * k <= 31 && word == Word(From(raw, k)) && Stored(Bytes(raw, k))
    }

    /** One turn of the loop. */
    method Turn(word: nat, bits: nat, ghost k: nat) returns (rest: nat)
      requires byteCnt + 2 <= buffer.Length && zeroBytes <= 2 && bits >= 8 && Draining(k, bits, word)
      modifies this`byteCnt, this`zeroBytes, this`emulCnt, buffer
      ensures old(byteCnt) < byteCnt <= old(byteCnt) + 2 && zeroBytes <= 2 && Draining(k + 1, bits - 8, rest)
    {
      var b;
      b, rest := TakeByte(word, raw, k);
      StoreByte(b);
    }

    /** The loop of `PutBits`: stores whole bytes while there are any. */
    method Drain(firstWord: nat, firstBits: nat, ghost first: nat)
      requires size + 2 <= buffer.Length && byteCnt <= size + 2
      requires firstBits <= 31 && bufferedBits < 8 && zeroBytes <= 2 && first <= |raw| / 8
      requires done <= |raw| / 8 && Stored(Bytes(raw, done))
      requires overflow ==> byteCnt > size
      requires !overflow ==> done == first && Draining(first, firstBits, firstWord)
      modifies this`done, this`byteCnt, this`zeroBytes, this`emulCnt, this`overflow, this`bufferedBits, this`byteBuffer, buffer
      ensures Sound()
      ensures overflow == (old(overflow) || (|raw| / 8 > first && StoredBefore(raw) > size))
    {
      hide Escape, ZerosAfter, Inserted, Word, Value, Shl, Pack, ByteAt, CountZeros, Emit;
      var bits, word := firstBits, firstWord;
      ghost var k := first;
      while bits > 7
        invariant bits <= 31 && first <= k <= |raw| / 8
        invariant byteCnt <= size + 2 && zeroBytes <= 2 && bufferedBits == old(bufferedBits)
        invariant overflow == old(overflow) && (overflow ==> byteCnt > size)
        invariant done <= |raw| / 8 && Stored(Bytes(raw, done))
        invariant !overflow ==> done == k && Draining(k, bits, word)
        invariant !overflow && k > first ==> |Escape(Bytes(raw, k - 1), 0)| <= size
      {
        var ok := Status();
        if !ok {
          if !old(overflow) { EscapeMono(Pack(raw), k, |raw| / 8 - 1); }
          return;
        }
        word := Turn(word, bits, k);
        bits := bits - 8;
        k := k + 1;
        done := k;
      }
      bufferedBits := bits;
      byteBuffer := word;
      assert !overflow ==> Bytes(raw, k) == Pack(raw) && From(raw, k) == Tail(raw);
    }

    /** Appends bits; stops for good when a byte is due past the limit. */
    method PutBits(val: nat, len: nat)
      requires Valid() && 1 <= len <= 24
      modifies this, buffer
      ensures Valid() && raw == Merged(old(raw), val, len) && (old(overflow) ==> overflow)
    {
      hide Shl, Low, Or, Value, BitsOf, StoredBefore;
      var bits := len + bufferedBits;
      var word := Or(byteBuffer, Low(Shl(val, 32 - bits), 32));
      ghost var k := |raw| / 8;
      ghost var R := Merged(raw, val, len);
      StoredGrows(raw, R);
      if !overflow {
        WordPut(Tail(raw), val, len);
        assert From(R, k) == BitsOf(Or(Shl(Value(Tail(raw)), len), Low(val, bits)), bits);
      }
      BytesKept(raw, R, done);
      raw := R;
      Drain(word, bits, k);
    }

    /** Puts the Exp-Golomb code of `num`. */
    method PutUe(num: nat)
      requires Valid() && num <= 0xffff_ffff && (num + 1) % 0x1_0000_0000 < 0x8000_0000
      modifies this, buffer
      ensures Valid() && raw == UePut(old(raw), num) && (old(overflow) ==> overflow)
      ensures num + 1 < 0x100_0000 ==> raw == old(raw) + UeCode(num)
    {
      hide Merged, UeCode, Shr, BitLength, Synced;
      var val := (num + 1) % 0x1_0000_0000;
      var numBits := CountBits(val);
      UeLengths(num);
      if numBits > 12 {
        var tmp := numBits - 1;
        if tmp > 24 {
          tmp := tmp - 24;
          PutBits(0, 24);
        }
        PutBits(0, tmp);
        if numBits > 24 {
          numBits := numBits - 24;
          PutBits(Shr(val, numBits), 24);
          val := Shr(val, numBits);
        }
        PutBits(val, numBits);
      } else {
        PutBits(val, 2 * numBits - 1);
      }
      if num + 1 < 0x100_0000 { UePutExact(old(raw), num); }
    }

    /** Puts the code of a signed value. */
    method PutSe(val: int)
      requires Valid() && -0x4000_0000 < val < 0x4000_0000
      modifies this, buffer
      ensures Valid() && raw == UePut(old(raw), SeNumber(val)) && (old(overflow) ==> overflow)
      ensures SeNumber(val) + 1 < 0x100_0000 ==> raw == old(raw) + SeCode(val)
      ensures 0 < val < 0x80_0000 ==> raw == old(raw) + UeCode(2 * val - 1)
      ensures -0x80_0000 < val <= 0 ==> raw == old(raw) + UeCode(-2 * val)
      ensures |raw| == |old(raw)| + |SeCode(val)|
    {
      hide UePut, UeCode, Sound, StoredBefore;
      UePutLength(raw, SeNumber(val));
      var tmp: nat;
      if val > 0 {
        tmp := 2 * val - 1;
      } else {
        tmp := -2 * val;
      }
      PutUe(tmp);
    }

    /** Ends the payload: a one, then zeros to the next byte. */
    method Trailing()
      requires Valid()
      modifies this, buffer
      ensures Valid() && (overflow <==> StoredBefore(WithTrailing(old(raw))) > size)
      ensures !overflow ==> raw == WithTrailing(old(raw)) && bufferedBits == 0
    {
      hide Merged, WithTrailing, Zeros, StoredBefore;
      StopBit(raw);
      TrailingGrows(raw);
      PutBits(1, 1);
      if bufferedBits > 0 {
        if !overflow { Padding(old(raw)); }
        PutBits(0, 8 - bufferedBits);
      } else if !overflow {
        NoPadding(old(raw));
      }
    }

    /** The stored bits: the payload and eight for every inserted byte. */
    method BitCount() returns (n: nat)
      requires Valid() && !overflow
      ensures n == |raw| + 8 * emulCnt
    {
      EscapeLength(Pack(raw), 0);
      assert Bytes(raw, done) == Pack(raw);
      n := byteCnt * 8 + bufferedBits;
    }
  }

  /** `while (val >> ++num_bits)`: the first shift, from one up, that leaves nothing. */
  method CountBits(val: nat) returns (n: nat)
    requires val < 0x8000_0000
    ensures n == if val == 0 then 1 else BitLength(val)
  {
    n := 1;
    while Shr(val, n) != 0
      invariant n >= 1 && (n > 1 ==> Shr(val, n - 1) != 0)
      decreases BitLength(val) - n
    {
      ShrLength(val, n);
      n := n + 1;
    }
    ShrLength(val, n);
    if n > 1 { ShrLength(val, n - 1); }
  }

  /** The length of the code of a signed value, counted without writing it. */
  method ExpGolombSigned(num: int) returns (n: nat)
    requires -0x4000_0000 < num < 0x4000_0000
    ensures n == |SeCode(num)| == |UeCode(if num > 0 then 2 * num - 1 else -2 * num)|
  {
    var val: nat;
    if num > 0 {
      val := 2 * num;
    } else {
      val := -2 * num + 1;
    }
    var tmp := CountBits(val);
    n := tmp * 2 - 1;
  }

  /** A shift leaves nothing exactly when it reaches the length. */
  lemma {:induction false} ShrLength(v: nat, n: nat)
    ensures Shr(v, n) == 0 <==> BitLength(v) <= n
  {
    if n > 0 { ShrLength(v / 2, n - 1); }
  }

  /** What `PutUe` appends, branch by branch. */
  function UePut(raw: seq<bool>, num: nat): seq<bool> {
    var v := (num + 1) % 0x1_0000_0000;
    var n := if v == 0 then 1 else BitLength(v);
    if n <= 12 then Merged(raw, v, 2 * n - 1)
    else if n <= 24 then Merged(Merged(raw, 0, n - 1), v, n)
    else
      var r := if n - 1 > 24 then Merged(Merged(raw, 0, 24), 0, n - 25) else Merged(raw, 0, n - 1);
      var k := n - 24;
      Merged(Merged(r, Shr(v, k), 24), Shr(v, k), k)
  }

  lemma {:induction false} LengthMono(v: nat, n: nat)
    requires v < Pow2(n)
    ensures BitLength(v) <= n
  {
    if v > 0 { LengthMono(v / 2, n - 1); }
  }

  lemma UeLengths(num: nat)
    requires num < 0x1_0000_0000
    ensures var v := (num + 1) % 0x1_0000_0000; BitLength(v) <= 32 && (v == 0 || BitLength(v) >= 1)
    ensures num + 1 < 0x100_0000 ==> BitLength(num + 1) <= 24
  {
    Pow32();
    LengthMono((num + 1) % 0x1_0000_0000, 32);
    if num + 1 < 0x100_0000 { LengthMono(num + 1, 24); }
  }

  /** The largest number wraps: nothing but a zero bit is put. */
  lemma UeWraps(raw: seq<bool>)
    ensures UePut(raw, 0xffff_ffff) == raw + [false]
  {
    hide Merged;
    Pow8();
    MergedFits(raw, 0, 1);
    assert BitsOf(0, 1) == [false];
  }

  /**
   A shift by 32 leaves the counting loop undefined.  On machines that take shift
   counts modulo 32 the loop ends exactly for values below 2^31.
   */
  lemma CountingEnds(val: nat)
    requires val < 0x1_0000_0000
    ensures (exists n: nat :: n > 0 && Shr(val, n % 32) == 0) <==> val < 0x8000_0000
  {
    Pow31();
    if val < 0x8000_0000 {
      LengthMono(val, 31);
      ShrLength(val, 31);
      assert 31 % 32 == 31;
    } else {
      forall n: nat | n > 0 ensures Shr(val, n % 32) != 0 {
        ShrLength(val, n % 32);
        if BitLength(val) <= n % 32 { PowMono(BitLength(val), 31); }
      }
    }
  }

  lemma Pow31()
    ensures Pow2(31) == 0x8000_0000
  {
    Pow32();
    assert Pow2(32) == 2 * Pow2(31);
  }

  /** Right or wrong, a code takes its length. */
  lemma UePutLength(raw: seq<bool>, num: nat)
    requires num + 1 < 0x8000_0000
    ensures |UePut(raw, num)| == |raw| + |UeCode(num)|
  {
    hide Merged, Shr, BitLength, Pow2, Zeros, BitsOf;
    UeLengths(num);
    MergedLengths();
    CodeLength(num);
  }

  lemma MergedLengths()
    ensures forall r, v, n {:trigger Merged(r, v, n)} :: |Merged(r, v, n)| == |r| + n
  {
    hide BitsOf, Or, Shl, Low, Value;
  }

  lemma CodeLength(num: nat)
    ensures BitLength(num + 1) >= 1 && |UeCode(num)| == 2 * BitLength(num + 1) - 1
  {
  }

  lemma ShortCode(raw: seq<bool>, v: nat, n: nat)
    requires 1 <= n && v < Pow2(n)
    ensures Merged(raw, v, 2 * n - 1) == raw + (Zeros(n - 1) + BitsOf(v, n))
  {
    hide Merged, BitsOf;
    PowMono(n, 2 * n - 1);
    MergedFits(raw, v, 2 * n - 1);
    BitsPadded(v, n - 1, n);
  }

  lemma LongCode(raw: seq<bool>, v: nat, n: nat)
    requires 1 <= n && v < Pow2(n)
    ensures Merged(Merged(raw, 0, n - 1), v, n) == raw + (Zeros(n - 1) + BitsOf(v, n))
  {
    hide Merged, BitsOf;
    MergedFits(raw, 0, n - 1);
    BitsOfZero(n - 1);
    MergedFits(raw + Zeros(n - 1), v, n);
  }

  /** Below the branch for long codes the appended bits are the code. */
  lemma UePutExact(raw: seq<bool>, num: nat)
    requires num + 1 < 0x100_0000
    ensures UePut(raw, num) == raw + UeCode(num)
  {
    hide Merged, BitsOf, Pow2, BitLength, Zeros;
    var n := BitLength(num + 1);
    UeLengths(num);
    if n <= 12 {
      ShortCode(raw, num + 1, n);
    } else {
      LongCode(raw, num + 1, n);
    }
  }

  /**
   A code of more than 24 significant bits ends with a second copy of the leading
   part instead of the low part of v; `b` bits of the leading part still wait for
   their byte then.  The bits come out right when the copy agrees with the low
   part and what runs into the waiting bits is covered by them.
   */
  predicate LongTailAgrees(v: nat, b: nat)
    requires BitLength(v) > 24
  {
    var k := BitLength(v) - 24;
    var c := Shr(v, k);
    Low(c, k) == Low(v, k) && Or(Low(c, b), Low(Shr(c, k), b)) == Low(c, b)
  }

  /** Adding below bit `k` is the only way two such sums are equal. */
  lemma SumsIff(h: nat, r: nat, g: nat, s: nat, k: nat)
    requires r < Pow2(k) && s < Pow2(k)
    ensures Shl(h, k) + r == Shl(g, k) + s <==> h == g && r == s
  {
    hide *;
    SplitUnique(h, r, k);
    SplitUnique(g, s, k);
  }

  /** The number the wrong merge makes, against the right one. */
  lemma TailNumbers(w: nat, c: nat, v: nat, b: nat, k: nat)
    requires w == Low(c, b)
    ensures Or(Shl(w, k), Low(c, b + k)) == Shl(w, k) + Low(v, k)
            <==> Low(c, k) == Low(v, k) && Or(Low(c, b), Low(Shr(c, k), b)) == Low(c, b)
  {
    hide *;
    OrSplit(w, Low(c, b + k), k);
    LowShr(c, k, b);
    assert k + b == b + k;
    SplitAt(c, k);
    SplitAt(v, k);
    SumsIff(Or(w, Low(Shr(c, k), b)), Low(c, k), w, Low(v, k), k);
  }

  /** A number of `|t| + k` bits spells `t` and then the low bits of `v` when it is their number. */
  lemma SpelledIff(t: seq<bool>, v: nat, k: nat, x: nat)
    requires x < Pow2(|t| + k)
    ensures BitsOf(x, |t| + k) == t + BitsOf(v, k) <==> x == Shl(Value(t), k) + Low(v, k)
  {
    hide *;
    ValueOfBits(x, |t| + k);
    LowFits(x, |t| + k);
    ValueAppend(t, BitsOf(v, k));
    ValueOfBits(v, k);
    if x == Shl(Value(t), k) + Low(v, k) {
      ValueInjective(BitsOf(x, |t| + k), t + BitsOf(v, k));
    }
  }

  lemma MergeBound(t: seq<bool>, c: nat, k: nat)
    ensures Or(Shl(Value(t), k), Low(c, |t| + k)) < Pow2(|t| + k)
  {
    hide *;
    ValueBound(t);
    ShlBound(Value(t), |t|, k);
    SplitAt(c, |t| + k);
    OrBound(Shl(Value(t), k), Low(c, |t| + k), |t| + k);
  }

  /** The merge of the wrong low part, against the bits that belong there. */
  lemma TailIff(t: seq<bool>, c: nat, v: nat, k: nat)
    requires Value(t) == Low(c, |t|)
    ensures var b := |t|;
            BitsOf(Or(Shl(Value(t), k), Low(c, b + k)), b + k) == t + BitsOf(v, k)
            <==> Low(c, k) == Low(v, k) && Or(Low(c, b), Low(Shr(c, k), b)) == Low(c, b)
  {
    hide *;
    MergeBound(t, c, k);
    SpelledIff(t, v, k, Or(Shl(Value(t), k), Low(c, |t| + k)));
    TailNumbers(Value(t), c, v, |t|, k);
  }

  /** The bits that wait behind the 24 leading ones are the low bits of that part. */
  lemma WaitingBits(r: seq<bool>, c: nat)
    ensures var t := Tail(r + BitsOf(c, 24)); Value(t) == Low(c, |t|)
  {
    var q := r + BitsOf(c, 24);
    var b := |Tail(q)|;
    BitsSplit(c, 24 - b, b);
    assert Tail(q) == BitsOf(c, b) by {
      assert q == (r + BitsOf(Shr(c, b), 24 - b)) + BitsOf(c, b);
    }
    ValueOfBits(c, b);
  }

  /** Exactly when a long code is written right. */
  lemma LongUeIff(raw: seq<bool>, num: nat)
    requires 0x100_0000 <= num + 1 < 0x8000_0000
    ensures BitLength(num + 1) > 24
    ensures UePut(raw, num) == raw + UeCode(num)
            <==> LongTailAgrees(num + 1, (|raw| + BitLength(num + 1) - 1) % 8)
  {
    hide *;
    var v := num + 1;
    var n := BitLength(v);
    LongLength(v);
    var k := n - 24;
    var c := Shr(v, k);
    var q := raw + Zeros(n - 1) + BitsOf(c, 24);
    LongPut(raw, num);
    LongSplit(raw, num);
    WaitingBits(raw + Zeros(n - 1), c);
    TailIff(Tail(q), c, v, k);
    LongTail(q, v, c, k);
    TailLength(q, raw, n);
    AgreesMeans(v, |Tail(q)|);
  }

  lemma AgreesMeans(v: nat, b: nat)
    requires BitLength(v) > 24
    ensures var k := BitLength(v) - 24; var c := Shr(v, k);
            LongTailAgrees(v, b) <==> Low(c, k) == Low(v, k) && Or(Low(c, b), Low(Shr(c, k), b)) == Low(c, b)
  {
    hide Low, Shr, Or, BitLength;
  }

  lemma TailLength(q: seq<bool>, raw: seq<bool>, n: nat)
    requires |q| == |raw| + n + 23 && n > 0
    ensures |Tail(q)| == (|raw| + n - 1) % 8
  {
  }

  /** The long branch: a right head, and the leading part once more. */
  lemma LongPut(raw: seq<bool>, num: nat)
    requires 0x100_0000 <= num + 1 < 0x8000_0000 && 24 < BitLength(num + 1) <= 32
    requires Shr(num + 1, BitLength(num + 1) - 24) < Pow2(24)
    ensures var n := BitLength(num + 1); var c := Shr(num + 1, n - 24);
            var q := raw + Zeros(n - 1) + BitsOf(c, 24);
            |q| == |raw| + n + 23 && UePut(raw, num) == Merged(q, c, n - 24)
  {
    hide Merged, BitsOf, Shr, BitLength, Pow2;
    LongHead(raw, num + 1);
  }

  lemma LongSplit(raw: seq<bool>, num: nat)
    requires 24 < BitLength(num + 1)
    ensures var n := BitLength(num + 1);
            raw + UeCode(num) == raw + Zeros(n - 1) + BitsOf(Shr(num + 1, n - 24), 24) + BitsOf(num + 1, n - 24)
  {
    hide BitsOf, Shr, BitLength, Zeros;
    var n := BitLength(num + 1);
    BitsSplit(num + 1, 24, n - 24);
    assert UeCode(num) == Zeros(n - 1) + BitsOf(num + 1, n);
  }

  lemma LongLength(v: nat)
    requires 0x100_0000 <= v < 0x1_0000_0000
    ensures 24 < BitLength(v) <= 32 && Shr(v, BitLength(v) - 24) < Pow2(24)
  {
    Pow32();
    LengthMono(v, 32);
    if BitLength(v) <= 24 { PowMono(BitLength(v), 24); }
    ShrBound(v, BitLength(v) - 24, 24);
  }

  /** Everything before the last put is right. */
  lemma LongHead(raw: seq<bool>, v: nat)
    requires 24 < BitLength(v) <= 32 && Shr(v, BitLength(v) - 24) < Pow2(24)
    ensures var n := BitLength(v);
            var c := Shr(v, n - 24);
            var r := if n - 1 > 24 then Merged(Merged(raw, 0, 24), 0, n - 25) else Merged(raw, 0, n - 1);
            Merged(r, c, 24) == raw + Zeros(n - 1) + BitsOf(c, 24)
  {
    hide Merged, BitsOf, Pow2, Shr;
    var n := BitLength(v);
    if n - 1 > 24 {
      MergedFits(raw, 0, 24);
      BitsOfZero(24);
      MergedFits(raw + Zeros(24), 0, n - 25);
      BitsOfZero(n - 25);
      assert Zeros(24) + Zeros(n - 25) == Zeros(n - 1);
      assert raw + Zeros(24) + Zeros(n - 25) == raw + Zeros(n - 1);
    } else {
      MergedFits(raw, 0, n - 1);
      BitsOfZero(n - 1);
    }
    MergedFits(raw + Zeros(n - 1), Shr(v, n - 24), 24);
  }

  /** Only the bits behind the last whole byte decide. */
  lemma LongTail(q: seq<bool>, v: nat, c: nat, k: nat)
    ensures Merged(q, c, k) == q + BitsOf(v, k) <==>
            BitsOf(Or(Shl(Value(Tail(q)), k), Low(c, |Tail(q)| + k)), |Tail(q)| + k) == Tail(q) + BitsOf(v, k)
  {
    hide BitsOf, Or, Shl, Value, Low;
    assert q + BitsOf(v, k) == Full(q) + (Tail(q) + BitsOf(v, k));
    var x := BitsOf(Or(Shl(Value(Tail(q)), k), Low(c, |Tail(q)| + k)), |Tail(q)| + k);
    if Full(q) + x == Full(q) + (Tail(q) + BitsOf(v, k)) {
      assert x == (Full(q) + x)[|Full(q)|..];
      assert Tail(q) + BitsOf(v, k) == (Full(q) + (Tail(q) + BitsOf(v, k)))[|Full(q)|..];
    }
  }

  /** The first odd value past the limit comes out wrong behind any payload. */
  lemma LongUeFails(raw: seq<bool>)
    ensures UePut(raw, 0x100_0000) != raw + UeCode(0x100_0000)
  {
    hide Merged, UePut, UeCode, Low, Shr, BitLength, Pow2, Or;
    LongUeIff(raw, 0x100_0000);
    FirstLong();
  }

  lemma FirstLong()
    ensures var v := 0x100_0001;
            BitLength(v) == 25 && Low(v, 1) == 1 && Low(Shr(v, 1), 1) == 0
  {
    hide BitLength;
    Pow32();
    LengthMono(0x100_0001, 25);
    if BitLength(0x100_0001) <= 24 { PowMono(BitLength(0x100_0001), 24); }
  }

  /** The payload with its stop bit, padded to a byte. */
  function WithTrailing(raw: seq<bool>): seq<bool> {
    raw + [true] + Zeros((8 - (|raw| + 1) % 8) % 8)
  }

  /** A one behind the payload, then as few zeros as fill the byte. */
  lemma TrailingShape(raw: seq<bool>)
    ensures var w := WithTrailing(raw);
            && |w| % 8 == 0 && |raw| < |w| <= |raw| + 8
            && w[..|raw|] == raw && w[|raw|] && forall i :: |raw| < i < |w| ==> !w[i]
  {
  }

  /** The stop bit and the padding only add to what is stored. */
  lemma TrailingGrows(raw: seq<bool>)
    ensures StoredBefore(raw) <= StoredBefore(raw + [true]) <= StoredBefore(WithTrailing(raw))
  {
    hide StoredBefore, Zeros;
    var w := WithTrailing(raw);
    StoredGrows(raw, raw + [true]);
    StoredGrows(raw + [true], w);
  }

  lemma StopBit(raw: seq<bool>)
    ensures Merged(raw, 1, 1) == raw + [true]
  {
    Pow8();
    MergedFits(raw, 1, 1);
    assert BitsOf(1, 1) == [true];
  }

  lemma Padding(raw: seq<bool>)
    requires (|raw| + 1) % 8 != 0
    ensures var r := raw + [true]; Merged(r, 0, 8 - |r| % 8) == WithTrailing(raw) && |WithTrailing(raw)| % 8 == 0
  {
    hide Merged;
    var r := raw + [true];
    MergedFits(r, 0, 8 - |r| % 8);
    BitsOfZero(8 - |r| % 8);
  }

  lemma NoPadding(raw: seq<bool>)
    requires (|raw| + 1) % 8 == 0
    ensures raw + [true] == WithTrailing(raw)
  {
  }

  /** More bits never take stored bytes back. */
  lemma StoredGrows(raw: seq<bool>, R: seq<bool>)
    requires Full(raw) <= R
    ensures |raw| / 8 <= |R| / 8 && Bytes(R, |raw| / 8) == Pack(raw)
    ensures StoredBefore(raw) <= StoredBefore(R)
    ensures |raw| / 8 == |R| / 8 ==> StoredBefore(raw) == StoredBefore(R)
  {
    hide Escape, Value;
    PackPrefix(raw, R);
    var d, e := Pack(raw), Pack(R);
    if d != [] {
      assert d[..|d| - 1] == e[..|d| - 1];
      EscapeMono(e, |d| - 1, |e| - 1);
    }
  }

  lemma BytesKept(raw: seq<bool>, R: seq<bool>, k: nat)
    requires Full(raw) <= R && k <= |raw| / 8
    ensures k <= |R| / 8 && Bytes(R, k) == Bytes(raw, k)
  {
    PackPrefix(raw, R);
    assert Pack(R)[..k] == Pack(R)[..|raw| / 8][..k];
  }

  /** The last whole byte takes one stored byte, or two. */
  lemma BeforeLast(raw: seq<bool>)
    ensures StoredBefore(raw) <= |Escape(Pack(raw), 0)| <= StoredBefore(raw) + 2
    ensures |raw| >= 8 ==> StoredBefore(raw) < |Escape(Pack(raw), 0)|
  {
    var d := Pack(raw);
    if d != [] {
      assert d == d[..|d| - 1] + [d[|d| - 1]];
      EscapeAppend(d[..|d| - 1], d[|d| - 1], 0);
    }
  }

  /** With no room at all one byte is stored, and the status stays clear. */
  method OnePast() returns (w: Writer)
    ensures fresh(w) && w.Valid() && w.size == 0 && w.byteCnt == 1 && !w.overflow
  {
    w := new Writer(0);
    w.PutBits(255, 8);
    w.PastLimitIff();
    w.StoredPrefix();
    EightBits(w.raw);
  }

  lemma EightBits(raw: seq<bool>)
    requires raw == Merged([], 255, 8)
    ensures |raw| == 8 && StoredBefore(raw) == 0 && |Escape(Pack(raw), 0)| == 1
  {
    hide Value, BitsOf, Merged;
    Pow8();
    MergedFits([], 255, 8);
    assert [] + BitsOf(255, 8) == BitsOf(255, 8);
    var d := Pack(raw);
    assert |d| == 1 && d == [d[0]];
    assert Escape(d[1..], CountZeros(0, d[0])) == [];
    assert Escape(d[..0], 0) == [];
  }

  /** The byte `b` comes next in the payload and is escaped as the counters say. */
  ghost predicate NextBytes(R: seq<bool>, k: nat, b: Byte)
    requires 8 * (k + 1) <= |R|
  {
    var d, e := Bytes(R, k), Bytes(R, k + 1);
    && Escape(e, 0) == Escape(d, 0) + Emit(ZerosAfter(d, 0), b)
    && ZerosAfter(e, 0) == CountZeros(ZerosAfter(d, 0), b)
    && Inserted(e, 0) == Inserted(d, 0) + |Emit(ZerosAfter(d, 0), b)| - 1
  }

  /** The top byte of the word is the next byte of the payload. */
  lemma NextByte(R: seq<bool>, k: nat)
    requires 8 <= |R| - 8 * k <= 32
    ensures Shr(Word(From(R, k)), 24) == Pack(R)[k] && Low(Shl(Word(From(R, k)), 8), 32) == Word(From(R, k + 1))
    ensures NextBytes(R, k, Pack(R)[k])
  {
    hide Shl, Shr, Low, Value, Escape, ZerosAfter, Inserted, CountZeros, Word;
    WordTake(R[8 * k..]);
    assert R[8 * k..][..8] == R[8 * k..8 * k + 8] && R[8 * k..][8..] == R[8 * (k + 1)..];
    EscapeAppend(Pack(R)[..k], Pack(R)[k], 0);
    assert Pack(R)[..k + 1] == Pack(R)[..k] + [Pack(R)[k]];
  }
}
