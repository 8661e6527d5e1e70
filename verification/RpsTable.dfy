/**
 The table of reference picture sets that the H.265 decoder packs for its hardware:
 what ends up where in the words, and that it fills them to the last bit.
 */
module RpsTable {
  import opened Bits
  import opened BitPut

  // ----- fields in a number

  datatype Field = Field(value: nat, width: nat)

  function Length(fs: seq<Field>): nat {
    if fs == [] then 0 else Length(fs[..|fs| - 1]) + fs[|fs| - 1].width
  }

  /** The fields behind each other, first one lowest, each cut to its width. */
  function Packed(fs: seq<Field>): nat {
    if fs == [] then 0
    else
      var front, f := fs[..|fs| - 1], fs[|fs| - 1];
      Packed(front) + Shl(Low(f.value, f.width), Length(front))
  }

  lemma PackedMore(fs: seq<Field>, f: Field)
    ensures Length(fs + [f]) == Length(fs) + f.width
    ensures Packed(fs + [f]) == Packed(fs) + Shl(Low(f.value, f.width), Length(fs))
  {
    assert (fs + [f])[..|fs|] == fs;
  }

  lemma {:induction false} LengthJoined(fs: seq<Field>, gs: seq<Field>)
    ensures Length(fs + gs) == Length(fs) + Length(gs)
  {
    if gs == [] {
      assert fs + gs == fs;
    } else {
      assert (fs + gs)[..|fs + gs| - 1] == fs + gs[..|gs| - 1];
      LengthJoined(fs, gs[..|gs| - 1]);
    }
  }

  lemma {:induction false} PackedBound(fs: seq<Field>)
    ensures Packed(fs) < Pow2(Length(fs))
  {
    hide Shl, Shr, Low, Pow2;
    if fs == [] {
      NoShift(0);
    } else {
      var front, f := fs[..|fs| - 1], fs[|fs| - 1];
      PackedBound(front);
      LowBound(f.value, f.width);
      ShlBound(Low(f.value, f.width), f.width, Length(front));
    }
  }

  /** Every field can be read back from its place, whatever stands before and behind it. */
  lemma {:induction false} FieldAt(fs: seq<Field>, k: nat)
    requires k < |fs|
    ensures Low(Shr(Packed(fs), Length(fs[..k])), fs[k].width) == Low(fs[k].value, fs[k].width)
  {
    hide Shl, Shr, Low, Pow2;
    var front, f := fs[..|fs| - 1], fs[|fs| - 1];
    PackedBound(front);
    SplitUnique(Low(f.value, f.width), Packed(front), Length(front));
    if k == |fs| - 1 {
      LowBound(f.value, f.width);
      LowFits(Low(f.value, f.width), f.width);
    } else {
      FieldAt(front, k);
      assert front[..k] == fs[..k];
      LengthUpTo(front, k);
      BelowSame(Packed(fs), Packed(front), Length(fs[..k]), fs[k].width, Length(front));
    }
  }

  lemma {:induction false} LengthUpTo(fs: seq<Field>, k: nat)
    requires k < |fs|
    ensures Length(fs[..k]) + fs[k].width <= Length(fs)
  {
    var front := fs[..|fs| - 1];
    if k < |fs| - 1 {
      assert front[..k] == fs[..k];
      LengthUpTo(front, k);
    }
  }

  /** What is added above bit `n` does not show below it. */
  lemma BelowSame(v: nat, low: nat, m: nat, w: nat, n: nat)
    requires Low(v, n) == low && low < Pow2(n) && m + w <= n
    ensures Low(Shr(v, m), w) == Low(Shr(low, m), w)
  {
    hide Shr, Low, Pow2;
    LowShr(v, m, w);
    LowShr(low, m, w);
    LowShr(v, m + w, n - m - w);
  }

  // ----- the table

  datatype LongTerm = LongTerm(poc: nat, used: nat)
  datatype Pic = Pic(delta: nat, used: nat)

  /** A short-term set; the counts in front are the lengths of its lists. */
  datatype ShortTerm = ShortTerm(before: seq<Pic>, behind: seq<Pic>)

  const WORDS := 400
  const NO_SET := ShortTerm([], [])

  function LongTermFields(lt: seq<LongTerm>): seq<Field> {
    if lt == [] then []
    else
      var x := lt[|lt| - 1];
      LongTermFields(lt[..|lt| - 1]) + [Field(x.poc, 16)] + [Field(x.used, 1)] + [Field(0, 15)]
  }

  function PicFields(ps: seq<Pic>): seq<Field> {
    if ps == [] then []
    else PicFields(ps[..|ps| - 1]) + [Field(ps[|ps| - 1].delta, 16)] + [Field(ps[|ps| - 1].used, 1)]
  }

  /** The pictures of a set, filled up to fifteen with empty ones. */
  function Fifteen(x: ShortTerm): seq<Pic> {
    x.before + x.behind
    + (if |x.before| + |x.behind| <= 15 then seq(15 - |x.before| - |x.behind|, _ => Pic(0, 0)) else [])
  }

  function SetFields(x: ShortTerm): seq<Field> {
    [Field(|x.before|, 4)] + [Field(|x.behind|, 4)] + PicFields(Fifteen(x)) + [Field(0, 57)] + [Field(0, 64)]
  }

  /** The first `n` of the 64 sets; those behind the given ones are empty. */
  function SetsFields(st: seq<ShortTerm>, n: nat): seq<Field> {
    if n == 0 then [] else SetsFields(st, n - 1) + SetFields(if n <= |st| then st[n - 1] else NO_SET)
  }

  function TableFields(lt: seq<LongTerm>, st: seq<ShortTerm>): seq<Field> {
    LongTermFields(lt) + SetsFields(st, 64)
  }

  predicate SetOk(x: ShortTerm) {
    |x.before| + |x.behind| <= 15
  }

  /** The packer holds exactly these fields. */
  ghost predicate Holds(p: Packer, fs: seq<Field>)
    reads p, p.words
  {
    p.Valid() && p.Position() == Length(fs) && p.Total() == Packed(fs)
  }

  method Put(p: Packer, value: nat, n: nat, ghost fs: seq<Field>) returns (ghost gs: seq<Field>)
    requires Holds(p, fs) && n <= WORD && (n == WORD ==> value == 0) && Length(fs) < WORD * p.limit
    modifies p`index, p`bitPos, p`current, p`behind, p.words
    ensures gs == fs + [Field(value, n)] && Holds(p, gs) && Length(gs) == Length(fs) + n
  {
    hide Packed, Length, Shl, Low, Pow2, Number;
    PackedMore(fs, Field(value, n));
    NothingAt(value, n, Length(fs));
    p.PutBits(value, n);
    gs := fs + [Field(value, n)];
  }

  lemma NothingAt(value: nat, n: nat, at: nat)
    ensures value == 0 ==> Low(value, n) == 0 && Shl(0, at) == 0 && Shl(0, at + WORD) == 0
    ensures n == 0 ==> Shl(Low(value, n), at) == 0
  {
    ShlZero(at);
    ShlZero(at + WORD);
    if value == 0 { LowZero(n); }
  }

  lemma {:induction false} LowZero(n: nat)
    ensures Low(0, n) == 0
  {
    if n > 0 { LowZero(n - 1); }
  }

  lemma {:induction false} PicsJoined(ps: seq<Pic>, qs: seq<Pic>)
    ensures PicFields(ps + qs) == PicFields(ps) + PicFields(qs)
  {
    if qs == [] {
      assert ps + qs == ps;
    } else {
      assert (ps + qs)[..|ps + qs| - 1] == ps + qs[..|qs| - 1];
      PicsJoined(ps, qs[..|qs| - 1]);
    }
  }

  method PutPics(p: Packer, ps: seq<Pic>, ghost fs: seq<Field>) returns (ghost gs: seq<Field>)
    requires Holds(p, fs) && Length(fs) + 17 * |ps| < WORD * p.limit
    modifies p`index, p`bitPos, p`current, p`behind, p.words
    ensures gs == fs + PicFields(ps) && Holds(p, gs) && Length(gs) == Length(fs) + 17 * |ps|
  {
    hide Holds, Length;
    gs := fs;
    for j := 0 to |ps|
      invariant Holds(p, gs) && gs == fs + PicFields(ps[..j]) && Length(gs) == Length(fs) + 17 * j
    {
      assert ps[..j + 1][..j] == ps[..j];
      gs := Put(p, ps[j].delta, 16, gs);
      gs := Put(p, ps[j].used, 1, gs);
    }
    assert ps[..|ps|] == ps;
  }

  /** Fills up to the next word with zeros. */
  method PutGap(p: Packer, n: nat, ghost fs: seq<Field>) returns (ghost gs: seq<Field>)
    requires Holds(p, fs) && n < WORD && (Length(fs) + n) % WORD == 0 && Length(fs) + n <= WORD * p.limit
    modifies p`index, p`bitPos, p`current, p`behind, p.words
    ensures gs == fs + [Field(0, n)] && Holds(p, gs) && Length(gs) == Length(fs) + n
  {
    hide Packed, Length, Shl, Low, Pow2, Number;
    SmallPowers();
    OneGap(Length(fs), n, Gap(Length(fs), 6));
    PackedMore(fs, Field(0, n));
    NothingAt(0, n, Length(fs));
    p.PutAlign(64, 6, false);
    gs := fs + [Field(0, n)];
  }

  lemma OneGap(at: nat, m: nat, n: nat)
    ensures m < WORD && n < WORD && (at + m) % WORD == 0 && (at + n) % WORD == 0 ==> m == n
  {
  }

  method PutSet(p: Packer, x: ShortTerm, ghost fs: seq<Field>) returns (ghost gs: seq<Field>)
    requires Holds(p, fs) && SetOk(x) && Length(fs) % WORD == 0 && Length(fs) + 384 <= WORD * p.limit
    modifies p`index, p`bitPos, p`current, p`behind, p.words
    ensures gs == fs + SetFields(x) && Holds(p, gs) && Length(gs) == Length(fs) + 384
  {
    hide Holds, Length, PicFields, SetFields;
    var rest := seq(15 - |x.before| - |x.behind|, _ => Pic(0, 0));
    gs := Put(p, |x.before|, 4, fs);
    gs := Put(p, |x.behind|, 4, gs);
    gs := PutPics(p, x.before, gs);
    gs := PutPics(p, x.behind, gs);
    gs := PutPics(p, rest, gs);
    gs := PutGap(p, 57, gs);
    gs := Put(p, 0, 64, gs);
    SetJoined(fs, x, rest);
  }

  lemma SetJoined(fs: seq<Field>, x: ShortTerm, rest: seq<Pic>)
    requires SetOk(x) && rest == seq(15 - |x.before| - |x.behind|, _ => Pic(0, 0))
    ensures fs + [Field(|x.before|, 4)] + [Field(|x.behind|, 4)] + PicFields(x.before) + PicFields(x.behind) + PicFields(rest)
            + [Field(0, 57)] + [Field(0, 64)] == fs + SetFields(x)
  {
    hide PicFields;
    PicsJoined(x.before, x.behind);
    PicsJoined(x.before + x.behind, rest);
    assert Fifteen(x) == x.before + x.behind + rest;
  }

  method NewPacker(words: nat) returns (p: Packer)
    ensures fresh(p) && fresh(p.words) && p.limit == words && Holds(p, []) && Length([]) == 0
  {
    p := new Packer(words);
  }

  /** A full packer has written the word behind its words. */
  lemma FullIsBehind(p: Packer, fs: seq<Field>)
    requires Holds(p, fs) && p.limit > 0 && Length(fs) == WORD * p.limit
    ensures p.behind && p.Position() == WORD * p.limit
  {
  }

  /**
   `hal_h265d_slice_hw_rps`: every field at its place, and the 400 words full to the last
   bit, so that the word behind them is written as well.
   */
  method SliceTable(lt: seq<LongTerm>, st: seq<ShortTerm>) returns (p: Packer)
    requires |lt| == 32 && |st| <= 64 && forall x <- st :: SetOk(x)
    ensures fresh(p) && fresh(p.words) && p.limit == WORDS
    ensures Holds(p, TableFields(lt, st)) && p.Position() == WORD * WORDS && p.behind
  {
    hide Length, SetFields, Holds, LongTermFields;
    ghost var fs: seq<Field> := [];
    p := NewPacker(WORDS);
    NoLongTerm(lt);
    for i := 0 to 32
      invariant Holds(p, fs) && fresh(p) && fresh(p.words) && p.limit == WORDS
      invariant fs == LongTermFields(lt[..i]) && Length(fs) == 32 * i
    {
      LongTermMore(lt, i);
      fs := Put(p, lt[i].poc, 16, fs);
      fs := Put(p, lt[i].used, 1, fs);
      fs := Put(p, 0, 15, fs);
    }
    assert lt[..32] == lt;
    for i := 0 to 64
      invariant Holds(p, fs) && fresh(p) && fresh(p.words) && p.limit == WORDS
      invariant fs == LongTermFields(lt) + SetsFields(st, i) && Length(fs) == 1024 + 384 * i
    {
      fs := PutSet(p, if i < |st| then st[i] else NO_SET, fs);
    }
    FullIsBehind(p, fs);
  }

  lemma NoLongTerm(lt: seq<LongTerm>)
    ensures LongTermFields(lt[..0]) == []
  {
  }

  lemma LongTermMore(lt: seq<LongTerm>, i: nat)
    requires i < |lt|
    ensures LongTermFields(lt[..i + 1])
            == LongTermFields(lt[..i]) + [Field(lt[i].poc, 16)] + [Field(lt[i].used, 1)] + [Field(0, 15)]
  {
    assert lt[..i + 1][..i] == lt[..i];
  }

  // ----- where each field is

  /** A field between others is found behind the bits in front of it. */
  lemma FieldIn(fs: seq<Field>, f: Field, gs: seq<Field>)
    ensures Low(Shr(Packed(fs + [f] + gs), Length(fs)), f.width) == Low(f.value, f.width)
  {
    hide Packed, Length, Low, Shr;
    var all := fs + [f] + gs;
    assert all[|fs|] == f && all[..|fs|] == fs;
    FieldAt(all, |fs|);
  }

  lemma OneLength(f: Field)
    ensures Length([f]) == f.width && Length([]) == 0
  {
    assert [f][..0] == [];
  }

  lemma {:induction false} LongTermLength(lt: seq<LongTerm>)
    ensures Length(LongTermFields(lt)) == 32 * |lt|
  {
    hide Length;
    if lt == [] {
      OneLength(Field(0, 0));
    } else {
      var x, front := lt[|lt| - 1], LongTermFields(lt[..|lt| - 1]);
      LongTermLength(lt[..|lt| - 1]);
      PackedMore(front, Field(x.poc, 16));
      PackedMore(front + [Field(x.poc, 16)], Field(x.used, 1));
      PackedMore(front + [Field(x.poc, 16)] + [Field(x.used, 1)], Field(0, 15));
    }
  }

  lemma {:induction false} PicsLength(ps: seq<Pic>)
    ensures Length(PicFields(ps)) == 17 * |ps|
  {
    hide Length;
    if ps == [] {
      OneLength(Field(0, 0));
    } else {
      var x, front := ps[|ps| - 1], PicFields(ps[..|ps| - 1]);
      PicsLength(ps[..|ps| - 1]);
      PackedMore(front, Field(x.delta, 16));
      PackedMore(front + [Field(x.delta, 16)], Field(x.used, 1));
    }
  }

  lemma SetLength(x: ShortTerm)
    requires SetOk(x)
    ensures |Fifteen(x)| == 15 && Length(SetFields(x)) == 384
  {
    hide Length, PicFields;
    var h := [Field(|x.before|, 4)] + [Field(|x.behind|, 4)];
    OneLength(Field(|x.before|, 4));
    PackedMore([Field(|x.before|, 4)], Field(|x.behind|, 4));
    PicsLength(Fifteen(x));
    LengthJoined(h, PicFields(Fifteen(x)));
    PackedMore(h + PicFields(Fifteen(x)), Field(0, 57));
    PackedMore(h + PicFields(Fifteen(x)) + [Field(0, 57)], Field(0, 64));
  }

  function SetAt(st: seq<ShortTerm>, i: nat): ShortTerm {
    if i < |st| then st[i] else NO_SET
  }

  lemma {:induction false} SetsLength(st: seq<ShortTerm>, n: nat)
    requires forall x <- st :: SetOk(x)
    ensures Length(SetsFields(st, n)) == 384 * n
  {
    hide Length, SetFields;
    if n == 0 {
      OneLength(Field(0, 0));
    } else {
      SetsLength(st, n - 1);
      SetLength(SetAt(st, n - 1));
      LengthJoined(SetsFields(st, n - 1), SetFields(SetAt(st, n - 1)));
    }
  }

  /** The fields of set `i` stand between those of the sets in front and behind. */
  lemma {:induction false} SetsSplit(st: seq<ShortTerm>, i: nat, n: nat) returns (rest: seq<Field>)
    requires i < n
    ensures SetsFields(st, n) == SetsFields(st, i) + SetFields(SetAt(st, i)) + rest
  {
    hide SetFields;
    if i == n - 1 {
      rest := [];
    } else {
      rest := SetsSplit(st, i, n - 1);
      rest := rest + SetFields(SetAt(st, n - 1));
    }
  }

  /** What stands `at` bits into the number, `n` bits wide. */
  function Read(number: nat, at: nat, n: nat): nat {
    Low(Shr(number, at), n)
  }

  /** The two counts of set `i` are at bit 1024 + 384 * i. */
  lemma CountsAt(lt: seq<LongTerm>, st: seq<ShortTerm>, i: nat)
    requires |lt| == 32 && |st| <= 64 && (forall x <- st :: SetOk(x)) && i < 64
    ensures var p := Packed(TableFields(lt, st));
            && Read(p, 1024 + 384 * i, 4) == |SetAt(st, i).before|
            && Read(p, 1024 + 384 * i + 4, 4) == |SetAt(st, i).behind|
  {
    hide Packed, Length, Low, Shr, LongTermFields, PicFields;
    var x := SetAt(st, i);
    var front, rest := SetFront(lt, st, i);
    var f, g := Field(|x.before|, 4), Field(|x.behind|, 4);
    var tail := PicFields(Fifteen(x)) + [Field(0, 57)] + [Field(0, 64)] + rest;
    assert TableFields(lt, st) == front + [f] + ([g] + tail) == (front + [f]) + [g] + tail;
    FieldIn(front, f, [g] + tail);
    PackedMore(front, f);
    FieldIn(front + [f], g, tail);
    SmallFits(|x.before|);
    SmallFits(|x.behind|);
  }

  lemma SmallFits(v: nat)
    requires v <= 15
    ensures Low(v, 4) == v
  {
    LowFits(v, 4);
  }

  /** What is in front of a set, and how long it is. */
  lemma SetFront(lt: seq<LongTerm>, st: seq<ShortTerm>, i: nat) returns (front: seq<Field>, rest: seq<Field>)
    requires |lt| == 32 && |st| <= 64 && (forall x <- st :: SetOk(x)) && i < 64
    ensures TableFields(lt, st) == front + SetFields(SetAt(st, i)) + rest && Length(front) == 1024 + 384 * i
    ensures SetOk(SetAt(st, i))
  {
    hide Length, SetFields, LongTermFields, SetsFields;
    rest := SetsSplit(st, i, 64);
    front := LongTermFields(lt) + SetsFields(st, i);
    LongTermLength(lt);
    SetsLength(st, i);
    LengthJoined(LongTermFields(lt), SetsFields(st, i));
  }

  /** Picture `j` of set `i`, those before the current one first, is at bit 1032 + 384 * i + 17 * j, and empty behind the last one. */
  lemma PicAt(lt: seq<LongTerm>, st: seq<ShortTerm>, i: nat, j: nat)
    requires |lt| == 32 && |st| <= 64 && (forall x <- st :: SetOk(x)) && i < 64 && j < 15
    ensures var x := SetAt(st, i); var p := Packed(TableFields(lt, st)); var at := 1032 + 384 * i + 17 * j;
            var b, n := |x.before|, |x.before| + |x.behind|;
            && Read(p, at, 16) == (if j < b then Low(x.before[j].delta, 16) else if j < n then Low(x.behind[j - b].delta, 16) else 0)
            && Read(p, at + 16, 1) == (if j < b then Low(x.before[j].used, 1) else if j < n then Low(x.behind[j - b].used, 1) else 0)
  {
    hide Packed, Length, Low, Shr, LongTermFields, PicFields;
    var x := SetAt(st, i);
    var front, rest := SetFront(lt, st, i);
    SetLength(x);
    var ps := Fifteen(x);
    var h := front + [Field(|x.before|, 4)] + [Field(|x.behind|, 4)];
    PackedMore(front, Field(|x.before|, 4));
    PackedMore(front + [Field(|x.before|, 4)], Field(|x.behind|, 4));
    var pre := PicSplit(ps, j);
    var post := PicFields(ps[j + 1..]) + [Field(0, 57)] + [Field(0, 64)] + rest;
    var f, g := Field(ps[j].delta, 16), Field(ps[j].used, 1);
    assert TableFields(lt, st) == (h + pre) + [f] + ([g] + post);
    assert TableFields(lt, st) == (h + pre + [f]) + [g] + post;
    LengthJoined(h, pre);
    FieldIn(h + pre, f, [g] + post);
    PackedMore(h + pre, f);
    FieldIn(h + pre + [f], g, post);
    LowZero(16);
    LowZero(1);
  }

  lemma PicSplit(ps: seq<Pic>, j: nat) returns (pre: seq<Field>)
    requires j < |ps|
    ensures PicFields(ps) == pre + [Field(ps[j].delta, 16)] + [Field(ps[j].used, 1)] + PicFields(ps[j + 1..])
    ensures Length(pre) == 17 * j
  {
    hide Length;
    pre := PicFields(ps[..j]);
    assert ps == ps[..j + 1] + ps[j + 1..];
    PicsJoined(ps[..j + 1], ps[j + 1..]);
    assert ps[..j + 1][..j] == ps[..j];
    PicsLength(ps[..j]);
  }

  /** Long-term picture `k` is at bit 32 * k. */
  lemma LongTermAt(lt: seq<LongTerm>, st: seq<ShortTerm>, k: nat)
    requires |lt| == 32 && k < 32
    ensures var p := Packed(TableFields(lt, st));
            Read(p, 32 * k, 16) == Low(lt[k].poc, 16) && Read(p, 32 * k + 16, 1) == Low(lt[k].used, 1)
  {
    hide Packed, Length, Low, Shr, SetsFields;
    var pre, f, g := LongTermFields(lt[..k]), Field(lt[k].poc, 16), Field(lt[k].used, 1);
    var post := LongTermSplit(lt, k);
    post := post + SetsFields(st, 64);
    assert TableFields(lt, st) == pre + [f] + ([g] + post) == (pre + [f]) + [g] + post;
    LongTermLength(lt[..k]);
    FieldIn(pre, f, [g] + post);
    PackedMore(pre, f);
    FieldIn(pre + [f], g, post);
  }

  lemma {:induction false} LongTermSplit(lt: seq<LongTerm>, k: nat) returns (post: seq<Field>)
    requires k < |lt|
    ensures LongTermFields(lt) == LongTermFields(lt[..k]) + [Field(lt[k].poc, 16)] + [Field(lt[k].used, 1)] + post
  {
    if k == |lt| - 1 {
      post := [Field(0, 15)];
    } else {
      var front, x := lt[..|lt| - 1], lt[|lt| - 1];
      post := LongTermSplit(front, k);
      assert front[..k] == lt[..k];
      post := post + [Field(x.poc, 16)] + [Field(x.used, 1)] + [Field(0, 15)];
    }
  }
}
