/**
 Writer and reader together: what any sequence of puts stores is read back
 unchanged, the end of the payload is seen exactly when it is reached, and the
 stored bytes hold no start code.
 */
module BitStream {
  import opened Bits
  import opened Emulation
  import opened BitWriter
  import opened BitReader

  /** One put, and the read that answers it. */
  datatype Item =
    | Fixed(val: nat, len: nat)
    | Unsigned(num: nat)
    | Signed(value: int)

  /** Values fit their lengths, and code numbers stay below 2^24 - 1. */
  predicate InRange(i: Item) {
    match i
    case Fixed(v, n) => 1 <= n <= 24 && Fits(v, n)
    case Unsigned(v) => v + 1 < 0x100_0000
    case Signed(v) => SeNumber(v) + 1 < 0x100_0000
  }

  function Code(i: Item): seq<bool> {
    match i
    case Fixed(v, n) => BitsOf(v, n)
    case Unsigned(v) => UeCode(v)
    case Signed(v) => SeCode(v)
  }

  function Codes(items: seq<Item>): seq<bool> {
    if items == [] then [] else Code(items[0]) + Codes(items[1..])
  }

  lemma {:induction false} CodesAppend(a: seq<Item>, b: seq<Item>)
    ensures Codes(a + b) == Codes(a) + Codes(b)
  {
    hide Code;
    if a == [] {
      assert a + b == b;
    } else {
      assert (a + b)[1..] == a[1..] + b;
      CodesAppend(a[1..], b);
    }
  }

  lemma NoCodes()
    ensures Codes([]) == []
  {
  }

  lemma CodesOne(i: Item)
    ensures Codes([i]) == Code(i)
  {
    assert Codes([i][1..]) == [];
  }

  /** The stored bytes of a payload, stop bit and padding included. */
  function StreamOf(payload: seq<bool>): seq<Byte> {
    Escape(Pack(WithTrailing(payload)), 0)
  }

  method PutItem(w: Writer, i: Item)
    requires w.Valid() && InRange(i)
    modifies w, w.buffer
    ensures w.Valid() && w.raw == old(w.raw) + Code(i) && (old(w.overflow) ==> w.overflow)
  {
    hide UeCode, SeCode, Merged, BitsOf, StoredBefore, Pow2;
    match i
    case Fixed(v, n) =>
      MergedFits(w.raw, v, n);
      w.PutBits(v, n);
    case Unsigned(v) => w.PutUe(v);
    case Signed(v) => w.PutSe(v);
  }

  method PutItems(w: Writer, items: seq<Item>)
    requires w.Valid() && forall i <- items :: InRange(i)
    modifies w, w.buffer
    ensures w.Valid() && w.raw == old(w.raw) + Codes(items) && (old(w.overflow) ==> w.overflow)
  {
    hide InRange, Code, Writer.Sound, StoredBefore, Codes;
    NoCodes();
    assert items[..0] == [];
    for k := 0 to |items|
      invariant w.Valid() && w.raw == old(w.raw) + Codes(items[..k]) && (old(w.overflow) ==> w.overflow)
    {
      PutItem(w, items[k]);
      CodesAppend(items[..k], [items[k]]);
      CodesOne(items[k]);
      assert items[..k + 1] == items[..k] + [items[k]];
    }
    assert items[..|items|] == items;
  }

  method GetItem(r: Reader, i: Item, ghost rest: seq<bool>) returns (ok: bool, got: Item)
    requires r.Valid() && r.Whole() && InRange(i) && r.Rest() == Code(i) + rest
    modifies r
    ensures r.Valid() && r.Whole() && r.Rest() == rest && ok && got == i
    ensures r.pos + r.bytesLeft == old(r.pos + r.bytesLeft)
  {
    hide UeCode, BitsOf, Pow2, StartsWithCode, Reader.Rest, Reader.Whole;
    match i
    case Fixed(v, n) =>
      var out;
      ok, out := r.ReadBits(n);
      SameField(BitsOf(v, n) + rest, v, out, n, rest, r.Rest());
      got := Fixed(out, n);
    case Unsigned(v) =>
      CodeInFront(v, rest);
      var out;
      ok, out := r.ReadUe();
      CodesPrefixFree(UeCode(v) + rest, v, out);
      SameRest(UeCode(v), rest, r.Rest());
      got := Unsigned(out);
    case Signed(v) =>
      CodeInFront(SeNumber(v), rest);
      var out;
      ok, out := r.ReadSe();
      CodesPrefixFree(UeCode(SeNumber(v)) + rest, SeNumber(v), SeNumber(out));
      SeNumberInjective(v, out);
      SameRest(SeCode(v), rest, r.Rest());
      got := Signed(out);
  }

  lemma SameRest(c: seq<bool>, r: seq<bool>, s: seq<bool>)
    requires c + r == c + s
    ensures r == s
  {
    assert r == (c + r)[|c|..];
    assert s == (c + s)[|c|..];
  }

  lemma CodeInFront(v: nat, rest: seq<bool>)
    requires v + 1 < 0x100_0000
    ensures StartsWithCode(UeCode(v) + rest) && UeCode(v) <= UeCode(v) + rest
  {
    hide UeCode;
    assert UeCode(v) <= UeCode(v) + rest;
  }

  lemma SameField(R: seq<bool>, v: nat, w: nat, n: nat, r: seq<bool>, s: seq<bool>)
    requires R == BitsOf(v, n) + r && R == BitsOf(w, n) + s && Fits(v, n) && w < Pow2(n)
    ensures v == w && r == s
  {
    hide Value, BitsOf;
    FrontValue(R, v, n, r);
    FrontValue(R, w, n, s);
    assert r == R[n..] == s;
  }

  /** No two signed values share a code number. */
  lemma SeNumberInjective(v: int, w: int)
    ensures SeNumber(v) == SeNumber(w) ==> v == w
  {
  }

  // ----- the stream as bits

  /** The bits of the whole bytes, spread again, are the bits. */
  lemma {:induction false} SpreadPack(raw: seq<bool>)
    requires |raw| % 8 == 0
    ensures Spread(Pack(raw)) == raw
    decreases |raw|
  {
    hide Value;
    if raw != [] {
      var h, t := raw[..8], raw[8..];
      SpreadPack(t);
      PackCons(raw);
      SpreadCons(ByteAt(raw, 0), Pack(t));
      BitsOfValue(h);
      assert raw[0..8] == h;
      assert raw == h + t;
    }
  }

  lemma PackCons(raw: seq<bool>)
    requires |raw| % 8 == 0 && raw != []
    ensures Pack(raw) == [ByteAt(raw, 0)] + Pack(raw[8..])
  {
    hide Value;
    var t := raw[8..];
    forall i | 0 <= i < |t| / 8 ensures Pack(raw)[i + 1] == Pack(t)[i] {
      Slice(raw, i);
    }
  }

  lemma Slice(raw: seq<bool>, i: nat)
    requires 8 * i + 16 <= |raw|
    ensures raw[8 * (i + 1)..8 * (i + 1) + 8] == raw[8..][8 * i..8 * i + 8]
  {
  }

  lemma TrailingBytes(payload: seq<bool>)
    ensures |WithTrailing(payload)| % 8 == 0
  {
  }

  lemma SomeBit(b: seq<bool>, j: nat)
    requires j < |b| && b[j]
    ensures Value(b) != 0
  {
    hide Value, BitsOf;
    if Value(b) == 0 {
      BitsOfValue(b);
      BitsOfZero(|b|);
    }
  }

  /** The stop bit is within the last eight bits. */
  lemma StopInLast(payload: seq<bool>)
    ensures var raw := WithTrailing(payload);
            |raw| >= 8 && |raw| - 8 <= |payload| < |raw| && raw[|payload|]
  {
  }

  /** The last stored byte holds the stop bit. */
  lemma StreamEnd(payload: seq<bool>)
    ensures var s := StreamOf(payload); s != [] && s[|s| - 1] != 0
  {
    hide Value, Escape, WithTrailing;
    var raw := WithTrailing(payload);
    var d := Pack(raw);
    StopInLast(payload);
    TrailingBytes(payload);
    EscapeLast(d, 0);
    var n := |raw| - 8;
    SomeBit(raw[n..n + 8], |payload| - n);
    assert 8 * (|d| - 1) == n;
  }

  /** A reader on the stored bytes starts with exactly the payload, the stop bit and the padding. */
  lemma StreamBits(payload: seq<bool>)
    ensures Spread(Unescape(StreamOf(payload), NO_BYTES, true)) == WithTrailing(payload)
    ensures Complete(StreamOf(payload), NO_BYTES, true)
  {
    hide Escape, Unescape, Complete, Pack, WithTrailing, Spread;
    var raw := WithTrailing(payload);
    UnescapeEscape(Pack(raw), 0, NO_BYTES);
    TrailingBytes(payload);
    SpreadPack(raw);
  }

  /** What is left tells whether payload is left: the stop bit is the last one. */
  lemma MoreIff(rest: seq<bool>, k: nat)
    ensures MoreData(rest + [true] + Zeros(k)) <==> rest != []
  {
    hide HasOne;
    var b := rest + [true] + Zeros(k);
    ZerosHaveNone(k);
    if rest == [] {
      assert b[1..] == Zeros(k);
    } else {
      assert b[1..] == rest[1..] + ([true] + Zeros(k));
      OneOf(true);
      HasOneConcat([true], Zeros(k));
      HasOneConcat(rest[1..], [true] + Zeros(k));
    }
  }

  /** A reader inside a stored stream, `rest` payload bits before the stop bit. */
  ghost predicate Reading(r: Reader, rest: seq<bool>, pad: nat)
    reads r
  {
    && r.Valid() && r.Whole()
    && r.Rest() == rest + ([true] + Zeros(pad))
    && r.pos + r.bytesLeft == |r.data| && r.data != [] && r.data[|r.data| - 1] != 0
  }

  function PadOf(payload: seq<bool>): nat {
    (8 - (|payload| + 1) % 8) % 8
  }

  method Open(data: seq<Byte>, ghost payload: seq<bool>) returns (r: Reader)
    requires data == StreamOf(payload)
    ensures fresh(r) && Reading(r, payload, PadOf(payload))
  {
    hide StreamOf, Unescape, Complete, Spread, Zeros;
    r := new Reader(data, true);
    StreamBits(payload);
    StreamEnd(payload);
    assert payload + [true] + Zeros(PadOf(payload)) == payload + ([true] + Zeros(PadOf(payload)));
  }

  /** At any point the answer is whether payload bits remain, and nothing is lost by asking. */
  method AskMore(r: Reader, ghost rest: seq<bool>, ghost pad: nat) returns (more: bool)
    requires Reading(r, rest, pad)
    modifies r
    ensures Reading(r, rest, pad) && (more <==> rest != [])
  {
    hide MoreData, Complete, Unescape, Zeros, Spread;
    MoreIff(rest, pad);
    assert rest + [true] + Zeros(pad) == rest + ([true] + Zeros(pad));
    StripEnd(r.Window());
    more := r.HasMoreRbspData();
  }

  method GetItems(r: Reader, items: seq<Item>, ghost pad: nat) returns (got: seq<Item>, more: seq<bool>)
    requires forall i <- items :: InRange(i)
    requires Reading(r, Codes(items), pad)
    modifies r
    ensures Reading(r, [], pad) && got == items
    ensures more == seq(|items|, _ => true) + [false]
  {
    hide InRange, Code, Zeros, Complete, Unescape, Spread;
    got, more := [], [];
    assert items[0..] == items;
    for k := 0 to |items|
      invariant Reading(r, Codes(items[k..]), pad)
      invariant got == items[..k] && more == seq(k, _ => true)
    {
      ghost var later := Codes(items[k + 1..]);
      assert items[k..][0] == items[k] && items[k..][1..] == items[k + 1..];
      CodeNotEmpty(items[k]);
      var m := AskMore(r, Codes(items[k..]), pad);
      more := more + [m];
      assert Code(items[k]) + later + ([true] + Zeros(pad)) == Code(items[k]) + (later + ([true] + Zeros(pad)));
      var ok, i := GetItem(r, items[k], later + ([true] + Zeros(pad)));
      got := got + [i];
    }
    assert items[|items|..] == [] && items[..|items|] == items;
    var m := AskMore(r, [], pad);
    more := more + [m];
  }

  lemma CodeNotEmpty(i: Item)
    requires InRange(i)
    ensures Code(i) != []
  {
    match i
    case Fixed(_, _) =>
    case Unsigned(v) => CodeForm(BitLength(v + 1) - 1, v + 1 - Pow2(BitLength(v + 1) - 1));
    case Signed(v) => CodeForm(BitLength(SeNumber(v) + 1) - 1, SeNumber(v) + 1 - Pow2(BitLength(SeNumber(v) + 1) - 1));
  }

  /** Writes the items, ends the payload and returns the stored bytes. */
  method Store(items: seq<Item>, size: nat) returns (ok: bool, data: seq<Byte>)
    requires forall i <- items :: InRange(i)
    ensures ok <==> Accepted(Codes(items), size)
    ensures ok ==> data == StreamOf(Codes(items))
  {
    hide InRange, StoredBefore, WithTrailing, Escape, Pack;
    var w := new Writer(size);
    PutItems(w, items);
    assert w.raw == Codes(items);
    w.Trailing();
    if !w.overflow { w.StoredPrefix(); }
    return !w.overflow, w.buffer[..w.byteCnt];
  }

  /** All but the last whole byte of the payload fit, escaped, into `size` bytes. */
  predicate Accepted(payload: seq<bool>, size: nat) {
    StoredBefore(WithTrailing(payload)) <= size
  }

  /** The last stored byte of the payload stands behind an escape. */
  predicate EscapedLast(payload: seq<bool>) {
    var d := Pack(WithTrailing(payload));
    d != [] && NeedsEscape(ZerosAfter(d[..|d| - 1], 0), d[|d| - 1])
  }

  /** The writer accepts every stream that fits, one byte too long, or two when the last byte is escaped; and no other. */
  lemma AcceptedIff(payload: seq<bool>, size: nat)
    ensures Accepted(payload, size)
            <==> |StreamOf(payload)| <= size + 1 || (EscapedLast(payload) && |StreamOf(payload)| == size + 2)
  {
    hide Escape, WithTrailing;
    var d := Pack(WithTrailing(payload));
    StopInLast(payload);
    assert d == d[..|d| - 1] + [d[|d| - 1]];
    EscapeAppend(d[..|d| - 1], d[|d| - 1], 0);
  }

  /** The empty payload is accepted by a writer without any room, which stores its stop bit. */
  method PastTheEnd() returns (data: seq<Byte>)
    ensures |data| == 1 && data == StreamOf([])
  {
    AcceptedIff([], 0);
    EmptyStream();
    var ok;
    ok, data := Store([], 0);
  }

  lemma EmptyStream()
    ensures |StreamOf([])| == 1 && StoredBefore(WithTrailing([])) == 0
  {
    hide Value;
    var d := Pack(WithTrailing([]));
    assert |d| == 1;
    assert Escape(d[1..], CountZeros(0, d[0])) == [];
    assert Escape(d[..0], 0) == [];
  }

  /**
   Any items the writer accepts are read back as they were put, in order, and the
   reader sees the end of the payload behind the last one and nowhere before.
   */
  method RoundTrip(items: seq<Item>, size: nat) returns (ok: bool, got: seq<Item>, more: seq<bool>)
    requires forall i <- items :: InRange(i)
    ensures ok <==> Accepted(Codes(items), size)
    ensures |StreamOf(Codes(items))| <= size ==> ok
    ensures ok ==> got == items && more == seq(|items|, _ => true) + [false]
  {
    hide InRange, Accepted, WithTrailing, StreamOf, Reading;
    var data;
    got, more := [], [];
    AcceptedIff(Codes(items), size);
    ok, data := Store(items, size);
    if ok {
      var r := Open(data, Codes(items));
      got, more := GetItems(r, items, PadOf(Codes(items)));
    }
  }

  /** The stored bytes of any payload hold no start code, and 000003 only as an escape. */
  lemma NoStartCode(payload: seq<bool>, i: nat)
    requires i + 2 < |StreamOf(payload)|
    ensures Harmless(StreamOf(payload), Marks(Pack(WithTrailing(payload)), 0), i)
  {
    EscapeHarmless(Pack(WithTrailing(payload)), 0, i);
  }

  /** And they hold no escape but where one is due. */
  lemma OnlyDueEscapes(payload: seq<bool>, i: nat)
    requires i < |StreamOf(payload)| && Marks(Pack(WithTrailing(payload)), 0)[i]
    ensures var s := StreamOf(payload);
            && i >= 2 && s[i - 2] == 0 && s[i - 1] == 0 && s[i] == 3 && i + 1 < |s| && s[i + 1] < 4
  {
    EscapeDue(Pack(WithTrailing(payload)), 0, i);
  }

  /** Different items make different streams. */
  lemma StreamsDiffer(a: seq<bool>, b: seq<bool>)
    requires StreamOf(a) == StreamOf(b)
    ensures a == b
  {
    hide StreamOf, Unescape, Complete, Spread, Zeros;
    StreamBits(a);
    StreamBits(b);
    var s := WithTrailing(a);
    SameTrailing(a, b);
  }

  lemma SameTrailing(a: seq<bool>, b: seq<bool>)
    requires WithTrailing(a) == WithTrailing(b)
    ensures a == b
  {
    var s, t := WithTrailing(a), WithTrailing(b);
    assert s[|a|] && t[|b|];
    assert s[..|a|] == a && t[..|b|] == b;
  }
}
