/** The 64-bit packer: values are put least significant bit first into little-endian words. */
module BitPut {
  import opened Bits

  const WORD: nat := 64

  /** The number a sequence of 64-bit words spells, first word lowest. */
  function Number(ws: seq<nat>): nat {
    if ws == [] then 0 else Number(ws[..|ws| - 1]) + Shl(ws[|ws| - 1], WORD * (|ws| - 1))
  }

  class Packer {
    const words: array<nat>     // the caller's and the one behind them
    const limit: nat            // the caller's words
    var index: nat
    var bitPos: nat
    var current: nat
    ghost var behind: bool      // the word behind the caller's was written

    ghost predicate Shape()
      reads this
    {
      && index <= limit && words.Length == limit + 1 && bitPos < WORD
      && (behind <==> 0 < limit && Position() >= WORD * limit)
    }

    /** Of the word being filled only the bits put are set. */
    ghost predicate Valid()
      reads this
    {
      Shape() && current < Pow2(bitPos)
    }

    /** The bits put so far. */
    function Position(): nat
      reads this
    {
      WORD * index + bitPos
    }

    /** Everything put so far, as one number. */
    ghost function Total(): nat
      reads this, words
      requires index <= words.Length
    {
      Number(words[..index]) + Shl(current, WORD * index)
    }

    constructor (limit: nat)
      ensures Valid() && fresh(words) && this.limit == limit && Position() == 0 && Total() == 0 && !behind
    {
      words := new nat[limit + 1];
      this.limit := limit;
      index := 0;
      bitPos := 0;
      current := 0;
      behind := false;
      new;
      assert words[..0] == [];
    }

    /**
     Puts the low `n` bits of a value; past the limit nothing happens.  A whole word put
     at a word's start is shifted by 64; with shift counts modulo 64 it is put twice.
     */
    method PutBits(value: nat, n: nat)
      requires Valid() && n <= WORD
      modifies this`index, this`bitPos, this`current, this`behind, words
      ensures Shape() && old(index) <= index && words[..old(index)] == old(words[..index])
      ensures Valid() <==> old(index) >= limit || n < WORD || old(bitPos) > 0 || Low(value, WORD) == 0
      ensures forall k :: index < k <= limit ==> words[k] == old(words[k])
      ensures !behind ==> words[limit] == old(words[limit])
      ensures n == 0 || old(index) >= limit ==>
                Position() == old(Position()) && current == old(current) && behind == old(behind) && words[..] == old(words[..])
      ensures n > 0 && old(index) < limit ==>
                && Position() == old(Position()) + n && words[index] == current
                && Total() == old(Total()) + Shl(Low(value, n), old(Position()))
                              + (if n == WORD && old(bitPos) == 0 then Shl(Low(value, n), old(Position()) + WORD) else 0)
    {
      hide Shl, Shr, Low, Or, Number, Pow2;
      if n == 0 { return; }
      if index >= limit { return; }
      var v := Shr(Low(Shl(value, WORD - n), WORD), WORD - n);
      Masked(value, n);
      ghost var i, was := index, words[..index];
      PutState(was, current, v, bitPos, n);
      PutPosition(index, bitPos, n);
      current := Or(current, Low(Shl(v, bitPos), WORD));
      if bitPos + n >= WORD {
        words[index] := current;
        current := Shr(v, (WORD - bitPos) % WORD);
        index := index + 1;
        assert words[..index] == was + [words[i]];
      }
      words[index] := current;
      behind := behind || index == limit;
      assert words[..i] == was;
      assert index == i + 1 ==> words[..index] == was + [words[i]];
      bitPos := (bitPos + n) % WORD;
    }

    /** Fills up to a multiple of `align` with copies of one bit, as far as the words go. */
    method PutAlign(align: nat, ghost e: nat, flag: bool)
      requires Valid() && e <= 11 && align == Pow2(e)
      modifies this`index, this`bitPos, this`current, this`behind, words
      ensures Valid() && (!behind ==> words[limit] == old(words[limit]))
      ensures var start, full := old(Position()), Gap(old(Position()), e);
              && full < align && (start + full) % align == 0 && Position() == start + Filled(start, full, WORD * limit)
              && (Position() % align == 0 <==> Position() == start + full)
      ensures Total() == old(Total()) + (if flag then Shl(Pow2(Position() - old(Position())) - 1, old(Position())) else 0)
    {
      hide Shl, Low, Pow2, Total, Gap, Position, Filled, Stepwise;
      var offset := Offset(align, e);
      GapIs(Position(), align, e, offset);
      var len: nat := (align - offset) % align;
      ghost var start, full, was := Position(), len, Total();
      ghost var filled := Filled(start, full, WORD * limit);
      FilledFacts(start, full, WORD * limit);
      NothingPut(start);
      while len > 0
        invariant Valid() && (!behind ==> words[limit] == old(words[limit]))
        invariant len <= full && Stepwise(full, len)
        invariant Position() == start + (if full - len <= filled then full - len else filled)
        invariant Total() == was + (if flag then Shl(Pow2(Position() - start) - 1, start) else 0)
      {
        var n := if len >= 8 then 8 else len;
        Chunk(start, full, WORD * limit, full - len, n);
        PutFlags(flag, n, start, Position() - start);
        len := len - n;
      }
      Aligned(start, align, full, filled);
    }

    /** Where the position is inside an aligned block. */
    method Offset(align: nat, ghost e: nat) returns (offset: nat)
      requires Valid() && e <= 11 && align == Pow2(e)
      ensures offset == Low(Position(), e) < align
    {
      hide Shl, Low, And, Pow2, Gap;
      var words := 0;
      BlockSize(e);
      LowBound(Position(), e);
      if align >= 64 {
        WholeWords(index, bitPos, align, e);
        words := 64 * And(index, And(align, 0xfe0) / 64 - 1);
      } else {
        WithinWord(index, bitPos, e);
      }
      offset := words + bitPos % align;
    }

    /** Up to eight copies of one bit, behind `done` earlier ones, or none past the limit. */
    method PutFlags(flag: bool, n: nat, ghost start: nat, ghost done: nat)
      requires Valid() && 0 < n <= 8 && Position() == start + done
      modifies this`index, this`bitPos, this`current, this`behind, words
      ensures Valid() && Position() == old(Position()) + (if old(Position()) < WORD * limit then n else 0)
      ensures !behind ==> !old(behind) && words[limit] == old(words[limit])
      ensures old(Position()) < WORD * limit && flag ==> Shl(Pow2(done + n) - 1, start) >= Shl(Pow2(done) - 1, start)
      ensures Total() == old(Total()) + (if old(Position()) < WORD * limit && flag
                                         then Shl(Pow2(done + n) - 1, start) - Shl(Pow2(done) - 1, start) else 0)
    {
      hide Shl, Low, Shr, Pow2, Number;
      Ones(n);
      MoreOnes(done, n, start);
      if flag {
        PutBits(Shr(Low(Shl(Pow2(WORD) - 1, WORD - n), WORD), WORD - n), n);
      } else {
        PutBits(Shr(Low(Shl(0, WORD - n), WORD), WORD - n), n);
      }
      assert old(index) >= limit ==> words[..index] == old(words[..index]);
    }
  }

  /** Two halves fill the one word the caller gave, and the word behind it is written. */
  method OneBehind(low: nat, high: nat) returns (p: Packer)
    ensures fresh(p) && p.limit == 1 && p.Valid() && p.Position() == WORD && p.behind
  {
    hide Shl, Low, Number, Pow2;
    p := new Packer(1);
    p.PutBits(low, 32);
    p.PutBits(high, 32);
  }

  /** A whole word at a word's start: with shift counts modulo 64 the number is put in two places. */
  method PutTwice(value: nat) returns (p: Packer)
    requires 0 < value < Pow2(WORD)
    ensures fresh(p) && p.Shape() && !p.Valid() && p.Position() == WORD && p.Total() == value + Shl(value, WORD)
  {
    hide Low, Number, Pow2, Shl;
    p := new Packer(2);
    LowFits(value, WORD);
    NoShift(value);
    p.PutBits(value, WORD);
  }

  /** The bits missing to the next multiple of 2^e. */
  function Gap(position: nat, e: nat): nat {
    (Pow2(e) - Low(position, e)) % Pow2(e)
  }

  /** The bits an alignment puts: all, or in steps of eight up to the end of the room. */
  function Filled(start: nat, full: nat, room: nat): nat {
    if start + full <= room then full
    else if start >= room then 0
    else if full <= (room - start + 7) / 8 * 8 then full
    else (room - start + 7) / 8 * 8
  }

  /** Only the last step may be shorter than eight bits. */
  predicate Stepwise(full: nat, len: nat) {
    len > 0 ==> (full - len) % 8 == 0
  }

  lemma FilledFacts(start: nat, full: nat, room: nat)
    ensures Filled(start, full, room) <= full && Stepwise(full, full)
  {
  }

  /** A step of the loop adds to what is filled exactly while there is room. */
  lemma Chunk(start: nat, full: nat, room: nat, k: nat, n: nat)
    requires k < full && Stepwise(full, full - k) && n == if full - k >= 8 then 8 else full - k
    ensures var f := Filled(start, full, room);
            && (k < f ==> start + k < room && k + n <= f)
            && (k >= f ==> start + f >= room)
            && Stepwise(full, full - k - n)
  {
  }

  lemma Aligned(start: nat, align: nat, full: nat, put: nat)
    requires 0 < align && put <= full < align && (start + full) % align == 0
    ensures (start + put) % align == 0 <==> put == full
  {
    if (start + put) % align == 0 && put < full {
      ModSub(start + full, start + put, align);
    }
  }

  lemma ModSub(x: nat, y: nat, p: nat)
    requires p > 0 && x % p == 0 && y % p == 0 && y <= x
    ensures x == y || x - y >= p
  {
    DivMod(x, p);
    DivMod(y, p);
    Minus(x / p, y / p, p);
    if x / p > y / p { LessProduct(x / p - y / p, p); }
  }

  lemma LessProduct(k: nat, p: nat)
    requires k > 0
    ensures k * p >= p
  {
  }

  lemma GapIs(position: nat, align: nat, e: nat, offset: nat)
    requires align == Pow2(e) && offset == Low(position, e) < align
    ensures var len := (align - offset) % align;
            len == Gap(position, e) < align && (position + len) % align == 0
  {
    hide Low, Pow2, Shr, Shl;
    SplitAt(position, e);
    ShlPow(Shr(position, e), e);
    GapMod(Shr(position, e), align, offset);
  }

  lemma GapMod(k: nat, p: nat, r: nat)
    requires r < p
    ensures var len := (p - r) % p; len < p && (k * p + r + len) % p == 0
  {
    if r == 0 {
      SumMod(1, p, 0);
      SumMod(k, p, 0);
    } else {
      SumMod(0, p, p - r);
      SumMod(k + 1, p, 0);
      Minus(k + 1, 1, p);
    }
  }

  lemma NothingPut(start: nat)
    ensures Shl(Pow2(0) - 1, start) == 0 && Pow2(0) == 1
  {
    ShlZero(start);
  }

  lemma PowersTo6()
    ensures Pow2(5) == 32 && Pow2(6) == 64
  {
    SmallPowers();
  }

  lemma SmallPowers()
    ensures Pow2(0) == 1 && Pow2(1) == 2 && Pow2(2) == 4 && Pow2(3) == 8 && Pow2(4) == 16 && Pow2(5) == 32 && Pow2(6) == 64
    ensures Pow2(7) == 128 && Pow2(8) == 256 && Pow2(9) == 512 && Pow2(10) == 1024 && Pow2(11) == 2048
  {
    assert Pow2(5) == 32;
    assert Pow2(9) == 512;
  }

  lemma NumberMore(ws: seq<nat>, w: nat)
    ensures Number(ws + [w]) == Number(ws) + Shl(w, WORD * |ws|)
  {
    assert (ws + [w])[..|ws|] == ws;
  }

  /** Shifting up and down again masks. */
  lemma Masked(value: nat, n: nat)
    requires n <= WORD
    ensures Shr(Low(Shl(value, WORD - n), WORD), WORD - n) == Low(value, n) < Pow2(n)
  {
    hide Shl, Shr, Low, Pow2;
    LowShl(value, WORD - n, n);
    SplitAt(value, n);
    assert 0 < Pow2(WORD - n);
    SplitUnique(Low(value, n), 0, WORD - n);
  }

  /** The word being filled, and what is left of the value for the next one. */
  lemma PutWord(cur: nat, v: nat, p: nat, n: nat)
    requires p < WORD && 0 < n <= WORD && cur < Pow2(p) && v < Pow2(n) && !(n == WORD && p == 0)
    ensures Or(cur, Low(Shl(v, p), WORD)) == cur + Shl(Low(v, WORD - p), p)
    ensures p + n >= WORD ==> Shr(v, WORD - p) < Pow2(p + n - WORD)
    ensures p + n < WORD ==> Low(v, WORD - p) == v && cur + Shl(v, p) < Pow2(p + n)
  {
    hide Shl, Shr, Low, Or, Pow2;
    LowShl(v, p, WORD - p);
    OrDisjoint(Low(v, WORD - p), cur, p);
    OrSwap(cur, Shl(Low(v, WORD - p), p));
    if p + n >= WORD {
      ShrBound(v, WORD - p, p + n - WORD);
    } else {
      PowMono(n, WORD - p);
      LowFits(v, WORD - p);
      ShlBound(v, n, p);
    }
  }

  lemma {:induction false} OrSwap(a: nat, b: nat)
    ensures Or(a, b) == Or(b, a)
  {
    if a > 0 || b > 0 { OrSwap(a / 2, b / 2); }
  }

  lemma PutPosition(i: nat, p: nat, n: nat)
    requires p < WORD && 0 < n <= WORD
    ensures p + n < WORD ==> (p + n) % WORD == p + n
    ensures p + n >= WORD ==> (p + n) % WORD == p + n - WORD
    ensures p > 0 ==> (WORD - p) % WORD == WORD - p
    ensures (WORD - 0) % WORD == 0
  {
  }

  /** The number grows by the value, within the word being filled or over its end. */
  lemma PutState(was: seq<nat>, cur: nat, v: nat, p: nat, n: nat)
    requires p < WORD && 0 < n <= WORD && cur < Pow2(p) && v < Pow2(n)
    ensures var w := Or(cur, Low(Shl(v, p), WORD));
            var i := |was|;
            var grown := Number(was) + Shl(cur, WORD * i) + Shl(v, WORD * i + p);
            && (p + n < WORD ==> w < Pow2(p + n) && Number(was) + Shl(w, WORD * i) == grown)
            && (p + n >= WORD && p > 0 ==>
                 && Shr(v, WORD - p) < Pow2(p + n - WORD)
                 && Number(was + [w]) + Shl(Shr(v, WORD - p), WORD * (i + 1)) == grown)
            && (p == 0 && n == WORD ==>
                 && (Shr(v, 0) < Pow2(0) <==> v == 0)
                 && Number(was + [w]) + Shl(Shr(v, 0), WORD * (i + 1)) == grown + Shl(v, WORD * i + WORD))
  {
    hide Shl, Shr, Low, Or, Number, Pow2;
    if p == 0 && n == WORD {
      PutWhole(was, cur, v);
    } else if p + n < WORD {
      PutWord(cur, v, p, n);
      PutWithin(cur, v, p, WORD * |was|);
    } else {
      PutWord(cur, v, p, n);
      PutOver(cur, v, p, |was|);
      NumberMore(was, Or(cur, Low(Shl(v, p), WORD)));
    }
  }

  /** A whole word at a word's start: it is stored, and with the shift by 64 taken as none it is kept as well. */
  lemma PutWhole(was: seq<nat>, cur: nat, v: nat)
    requires cur < Pow2(0) && v < Pow2(WORD)
    ensures Or(cur, Low(Shl(v, 0), WORD)) == v && (Shr(v, 0) < Pow2(0) <==> v == 0)
    ensures var i := |was|;
            Number(was + [v]) + Shl(Shr(v, 0), WORD * (i + 1))
            == Number(was) + Shl(cur, WORD * i) + Shl(v, WORD * i) + Shl(v, WORD * i + WORD)
  {
    hide Number, Low, Shl, Shr, Pow2, Or;
    NoShift(v);
    LowFits(v, WORD);
    NumberMore(was, v);
    ShlZero(WORD * |was|);
    OrZero(v);
  }

  lemma NoShift(v: nat)
    ensures Pow2(0) == 1 && Shl(v, 0) == v && Shr(v, 0) == v
  {
  }

  lemma {:induction false} OrZero(v: nat)
    ensures Or(0, v) == v
  {
    if v > 0 { OrZero(v / 2); }
  }

  lemma PutWithin(cur: nat, v: nat, p: nat, at: nat)
    ensures Shl(cur + Shl(v, p), at) == Shl(cur, at) + Shl(v, at + p)
  {
    hide Shl, Shr, Low, Or, Number, Pow2;
    ShlAdd(cur, Shl(v, p), at);
    ShlShl(v, p, at);
  }

  /** Split at the word's end, the value arrives whole. */
  lemma PutOver(cur: nat, v: nat, p: nat, i: nat)
    requires p < WORD
    ensures Shl(cur + Shl(Low(v, WORD - p), p), WORD * i) + Shl(Shr(v, WORD - p), WORD * (i + 1))
            == Shl(cur, WORD * i) + Shl(v, WORD * i + p)
  {
    hide Shl, Shr, Low, Or, Number, Pow2;
    var h, l := Shr(v, WORD - p), Low(v, WORD - p);
    SplitAt(v, WORD - p);
    ShlAdd(Shl(h, WORD - p), l, p);
    ShlShl(h, WORD - p, p);
    ShlShl(v, p, WORD * i);
    ShlAdd(Shl(h, WORD), Shl(l, p), WORD * i);
    ShlShl(h, WORD, WORD * i);
    ShlAdd(cur, Shl(l, p), WORD * i);
  }

  lemma BlockSize(e: nat)
    requires e <= 11
    ensures Pow2(e) >= 64 <==> e >= 6
  {
    hide Pow2;
    PowersTo6();
    if e >= 6 { PowMono(6, e); } else { PowMono(e, 5); }
  }

  lemma LowBound(v: nat, e: nat)
    ensures Low(v, e) < Pow2(e)
  {
    hide Low, Pow2, Shl, Shr;
    SplitAt(v, e);
  }

  /** The position within a block of words: whole words of it, and the bits of the last word. */
  lemma WholeWords(index: nat, bitPos: nat, align: nat, e: nat)
    requires bitPos < WORD && 6 <= e <= 11 && 64 <= align == Pow2(e)
    ensures And(align, 0xfe0) / 64 > 0 && bitPos % align == bitPos
    ensures Low(WORD * index + bitPos, e) == 64 * And(index, And(align, 0xfe0) / 64 - 1) + bitPos
  {
    hide Shl, Low, Pow2, And;
    PowersTo6();
    ShlPow(index, 6);
    LowAbove(index, bitPos, e - 6, 6);
    ShlPow(Low(index, e - 6), 6);
    BlockMask(e);
    AndMask(index, e - 6);
  }

  lemma WithinWord(index: nat, bitPos: nat, e: nat)
    requires bitPos < WORD && e < 6
    ensures Low(WORD * index + bitPos, e) == bitPos % Pow2(e)
  {
    hide Shl, Low, Pow2;
    PowersTo6();
    ShlPow(index, 6);
    SplitUnique(index, bitPos, 6);
    LowShr(WORD * index + bitPos, e, 6 - e);
    LowMod(bitPos, e);
  }

  /** The mask the code takes from a block size of 64 to 2048. */
  lemma BlockMask(e: nat)
    requires 6 <= e <= 11
    ensures And(Pow2(e), 0xfe0) / 64 - 1 == Pow2(e - 6) - 1
  {
    hide And, Low, Shl, Pow2;
    var j := e - 5;
    PowSum(j, 5);
    SmallPowers();
    ShlPow(0x7f, 5);
    AndShl(Pow2(j), 0x7f, 5);
    AndMask(Pow2(j), 7);
    PowMono(j, 6);
    LowFits(Pow2(j), 7);
    FiveSix(j);
  }

  lemma FiveSix(j: nat)
    requires j > 0
    ensures Pow2(j + 5) / 64 == Pow2(j - 1)
  {
    PowSum(j - 1, 6);
    ShlPow(Pow2(j - 1), 6);
    SmallPowers();
  }

  lemma {:induction false} AndShl(a: nat, b: nat, k: nat)
    ensures And(Shl(a, k), Shl(b, k)) == Shl(And(a, b), k)
  {
    hide And;
    if k > 0 {
      AndDouble(Shl(a, k - 1), Shl(b, k - 1));
      AndShl(a, b, k - 1);
    }
  }

  lemma AndDouble(x: nat, y: nat)
    ensures And(2 * x, 2 * y) == 2 * And(x, y)
  {
    assert (2 * x) / 2 == x && (2 * y) / 2 == y;
  }

  lemma Ones(n: nat)
    requires 0 < n <= 8
    ensures Shr(Low(Shl(Pow2(WORD) - 1, WORD - n), WORD), WORD - n) == Pow2(n) - 1 == Low(Pow2(n) - 1, n)
    ensures Shr(Low(Shl(0, WORD - n), WORD), WORD - n) == 0 == Low(0, n)
  {
    hide Shl, Shr, Low, Pow2;
    Masked(Pow2(WORD) - 1, n);
    Masked(0, n);
    LowOnes(WORD, n);
    assert 0 < Pow2(n);
    LowFits(0, n);
    LowFits(Pow2(n) - 1, n);
  }

  lemma {:induction false} LowOnes(m: nat, n: nat)
    requires n <= m
    ensures Low(Pow2(m) - 1, n) == Pow2(n) - 1
  {
    hide Pow2;
    if n > 0 {
      HalfOnes(m);
      HalfOnes(n);
      LowOnes(m - 1, n - 1);
    } else {
      NothingPut(0);
    }
  }

  lemma HalfOnes(m: nat)
    requires m > 0
    ensures (Pow2(m) - 1) / 2 == Pow2(m - 1) - 1 && (Pow2(m) - 1) % 2 == 1
  {
  }

  /** Ones behind ones. */
  lemma MoreOnes(done: nat, n: nat, start: nat)
    ensures Shl(Pow2(done + n) - 1, start) == Shl(Pow2(done) - 1, start) + Shl(Pow2(n) - 1, start + done)
    ensures Shl(0, start + done) == 0
  {
    hide Shl, Pow2;
    PowSum(n, done);
    ShlOne(Pow2(n) - 1, done);
    ShlAdd(Pow2(done) - 1, Shl(Pow2(n) - 1, done), start);
    ShlShl(Pow2(n) - 1, done, start);
    ShlZero(start + done);
  }

  lemma {:induction false} ShlOne(v: nat, n: nat)
    ensures Shl(v + 1, n) == Shl(v, n) + Pow2(n)
  {
    if n > 0 { ShlOne(v, n - 1); }
  }
}
