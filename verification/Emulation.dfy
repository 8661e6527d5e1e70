/**
 Emulation prevention (ITU-T H.264, section 7.4.1): the byte 03 is put in front of
 a byte 00..03 that follows two zero bytes, and a reader drops it again.
 */
module Emulation {
  import opened Bits

  // ----- writing

  /** Zero bytes counted after the byte `b`, which may need an escape. */
  function CountZeros(z: nat, b: Byte): nat {
    if b != 0 then 0 else if z == 2 then 1 else z + 1
  }

  predicate NeedsEscape(z: nat, b: Byte) {
    z == 2 && b < 4
  }

  function Emit(z: nat, b: Byte): seq<Byte> {
    if NeedsEscape(z, b) then [3, b] else [b]
  }

  /** The bytes stored for the payload `d` after `z` counted zero bytes. */
  function Escape(d: seq<Byte>, z: nat): seq<Byte> {
    if d == [] then [] else Emit(z, d[0]) + Escape(d[1..], CountZeros(z, d[0]))
  }

  /** Which of the stored bytes are inserted ones. */
  function Marks(d: seq<Byte>, z: nat): (m: seq<bool>)
    ensures |m| == |Escape(d, z)|
  {
    if d == [] then []
    else (if NeedsEscape(z, d[0]) then [true, false] else [false]) + Marks(d[1..], CountZeros(z, d[0]))
  }

  function ZerosAfter(d: seq<Byte>, z: nat): nat {
    if d == [] then z else ZerosAfter(d[1..], CountZeros(z, d[0]))
  }

  function Inserted(d: seq<Byte>, z: nat): nat {
    if d == [] then 0 else (if NeedsEscape(z, d[0]) then 1 else 0) + Inserted(d[1..], CountZeros(z, d[0]))
  }

  lemma {:induction false} EscapeAppend(d: seq<Byte>, b: Byte, z: nat)
    ensures Escape(d + [b], z) == Escape(d, z) + Emit(ZerosAfter(d, z), b)
    ensures ZerosAfter(d + [b], z) == CountZeros(ZerosAfter(d, z), b)
    ensures Inserted(d + [b], z) == Inserted(d, z) + (if NeedsEscape(ZerosAfter(d, z), b) then 1 else 0)
  {
    if d != [] {
      assert (d + [b])[1..] == d[1..] + [b];
      EscapeAppend(d[1..], b, CountZeros(z, d[0]));
    }
  }

  lemma {:induction false} ZerosBound(d: seq<Byte>, z: nat)
    requires z <= 2
    ensures ZerosAfter(d, z) <= 2
  {
    if d != [] { ZerosBound(d[1..], CountZeros(z, d[0])); }
  }

  /** Every inserted byte is stored on top of the payload. */
  lemma {:induction false} EscapeLength(d: seq<Byte>, z: nat)
    ensures |Escape(d, z)| == |d| + Inserted(d, z)
  {
    if d != [] { EscapeLength(d[1..], CountZeros(z, d[0])); }
  }

  lemma {:induction false} EscapeConcat(d: seq<Byte>, e: seq<Byte>, z: nat)
    ensures Escape(d + e, z) == Escape(d, z) + Escape(e, ZerosAfter(d, z))
  {
    if d == [] {
      assert d + e == e;
    } else {
      assert (d + e)[1..] == d[1..] + e;
      EscapeConcat(d[1..], e, CountZeros(z, d[0]));
    }
  }

  lemma {:induction false} EscapeMono(d: seq<Byte>, j: nat, k: nat)
    requires j <= k <= |d|
    ensures |Escape(d[..j], 0)| <= |Escape(d[..k], 0)|
    decreases k - j
  {
    if j < k {
      EscapeMono(d, j, k - 1);
      assert d[..k] == d[..k - 1] + [d[k - 1]];
      EscapeAppend(d[..k - 1], d[k - 1], 0);
    }
  }

  // ----- no start code in the output

  /** Three bytes at `i` with two leading zeros: the third is large, or an inserted 03. */
  ghost predicate Harmless(s: seq<Byte>, m: seq<bool>, i: nat)
    requires i + 2 < |s| && |m| == |s|
  {
    s[i] == 0 && s[i + 1] == 0 ==> s[i + 2] > 3 || (s[i + 2] == 3 && m[i + 2])
  }

  lemma {:induction false} EscapeHead(d: seq<Byte>, z: nat)
    requires z == 2 && d != []
    ensures Escape(d, z)[0] > 3 || (Escape(d, z)[0] == 3 && Marks(d, z)[0])
  {
  }

  lemma {:induction false} EscapeHarmless(d: seq<Byte>, z: nat, i: nat)
    requires z <= 2 && i + 2 < |Escape(d, z)|
    ensures Harmless(Escape(d, z), Marks(d, z), i)
  {
    var z' := CountZeros(z, d[0]);
    var k := |Emit(z, d[0])|;
    var e, m := Escape(d[1..], z'), Marks(d[1..], z');
    if i >= k {
      EscapeHarmless(d[1..], z', i - k);
    } else if i + 1 == k && d[0] == 0 {
      EscapePair(d[1..], z');
    }
  }

  /** After a zero byte that was counted as `z`, a second one is answered by an escape. */
  lemma EscapePair(d: seq<Byte>, z: nat)
    requires 1 <= z <= 2
    ensures z == 2 && |Escape(d, z)| > 0 ==> Escape(d, z)[0] != 0
    ensures z == 1 && |Escape(d, z)| > 1 && Escape(d, z)[0] == 0 ==>
              Escape(d, z)[1] > 3 || (Escape(d, z)[1] == 3 && Marks(d, z)[1])
  {
    if d != [] && z == 1 && d[0] == 0 && |d| > 1 {
      EscapeHead(d[1..], 2);
    }
  }

  // ----- no escape too many

  /** A stored byte at `i` has two zero bytes in front, `z` of them from before the first one. */
  ghost predicate ZerosInFront(s: seq<Byte>, z: nat, i: nat)
    requires i < |s|
  {
    && (if i >= 1 then s[i - 1] == 0 else z == 2)
    && (if i >= 2 then s[i - 2] == 0 else i == 1 ==> z >= 1)
  }

  /** Every inserted byte is a 3 where the standard demands one: behind two zero bytes and in front of a byte below 4. */
  lemma {:induction false} EscapeDue(d: seq<Byte>, z: nat, i: nat)
    requires z <= 2 && i < |Escape(d, z)| && Marks(d, z)[i]
    ensures var s := Escape(d, z);
            && s[i] == 3 && ZerosInFront(s, z, i)
            && i + 1 < |s| && s[i + 1] < 4 && !Marks(d, z)[i + 1]
  {
    var z' := CountZeros(z, d[0]);
    var k := |Emit(z, d[0])|;
    if i >= k { EscapeDue(d[1..], z', i - k); }
  }

  // ----- reading

  /** The last two delivered bytes, as the reader keeps them. */
  function Shift(p: nat, b: Byte): nat {
    (p * 256 + b) % 0x1_0000
  }

  const NO_BYTES := 0xffff

  predicate IsEscape(b: Byte, p: nat, detect: bool) {
    detect && b == 3 && p == 0
  }

  /** The bytes the reader delivers from `d`; an escape at the very end delivers nothing. */
  function Unescape(d: seq<Byte>, p: nat, detect: bool): seq<Byte>
    decreases |d|
  {
    if d == [] then []
    else if IsEscape(d[0], p, detect) then
      if |d| == 1 then [] else [d[1]] + Unescape(d[2..], Shift(NO_BYTES, d[1]), detect)
    else [d[0]] + Unescape(d[1..], Shift(p, d[0]), detect)
  }

  /** The data does not end in an escape that has nothing to protect. */
  predicate Complete(d: seq<Byte>, p: nat, detect: bool)
    decreases |d|
  {
    if d == [] then true
    else if IsEscape(d[0], p, detect) then |d| > 1 && Complete(d[2..], Shift(NO_BYTES, d[1]), detect)
    else Complete(d[1..], Shift(p, d[0]), detect)
  }

  /** Writer and reader agree on how many zero bytes came last. */
  predicate Agree(z: nat, p: nat) {
    && p < 0x1_0000
    && (z == 0 <==> p % 256 != 0)
    && (z == 2 <==> p == 0)
    && z <= 2
  }

  lemma ShiftFacts(p: nat, b: Byte)
    ensures Shift(p, b) == (p % 256) * 256 + b && Shift(p, b) % 256 == b && Shift(p, b) < 0x1_0000
    ensures Shift(p, b) == 0 <==> p % 256 == 0 && b == 0
  {
    var q, r := p / 256, p % 256;
    assert p == 256 * q + r;
    assert p * 256 + b == 0x1_0000 * q + (256 * r + b);
    LowWord(q, 256 * r + b);
    LowByte(r, b);
  }

  lemma LowWord(q: nat, r: nat)
    requires r < 0x1_0000
    ensures (0x1_0000 * q + r) % 0x1_0000 == r
  {
  }

  lemma LowByte(q: nat, b: Byte)
    ensures (256 * q + b) % 256 == b
  {
  }

  lemma AgreeMeans(z: nat, p: nat)
    requires Agree(z, p)
    ensures z <= 2 && (z == 2 <==> p == 0)
  {
  }

  lemma NothingEscaped(p: nat)
    ensures Unescape([], p, true) == [] && Complete([], p, true)
  {
  }

  lemma UnescapePlain(b: Byte, r: seq<Byte>, p: nat)
    requires b != 3 || p != 0
    ensures Unescape([b] + r, p, true) == [b] + Unescape(r, Shift(p, b), true)
    ensures Complete([b] + r, p, true) == Complete(r, Shift(p, b), true)
  {
    hide Shift;
    assert ([b] + r)[1..] == r;
  }

  lemma UnescapeEscaped(b: Byte, r: seq<Byte>, p: nat)
    requires p == 0
    ensures Unescape([3, b] + r, p, true) == [b] + Unescape(r, Shift(NO_BYTES, b), true)
    ensures Complete([3, b] + r, p, true) == Complete(r, Shift(NO_BYTES, b), true)
  {
    hide Shift;
    assert ([3, b] + r)[2..] == r;
  }

  lemma AgreeStep(z: nat, p: nat, b: Byte)
    requires Agree(z, p)
    ensures !NeedsEscape(z, b) ==> Agree(CountZeros(z, b), Shift(p, b))
    ensures NeedsEscape(z, b) ==> Agree(CountZeros(z, b), Shift(NO_BYTES, b))
  {
    ShiftFacts(p, b);
    ShiftFacts(NO_BYTES, b);
    hide Shift;
  }

  /** What was escaped is delivered unchanged, and nothing dangles. */
  lemma {:induction false} UnescapeEscape(d: seq<Byte>, z: nat, p: nat)
    requires Agree(z, p)
    ensures Unescape(Escape(d, z), p, true) == d && Complete(Escape(d, z), p, true)
  {
    hide Shift, Unescape, Complete, Agree;
    if d == [] {
      NothingEscaped(p);
    } else {
      var z', r := CountZeros(z, d[0]), Escape(d[1..], CountZeros(z, d[0]));
      AgreeStep(z, p, d[0]);
      AgreeMeans(z, p);
      assert d == [d[0]] + d[1..];
      if NeedsEscape(z, d[0]) {
        UnescapeEscape(d[1..], z', Shift(NO_BYTES, d[0]));
        UnescapeEscaped(d[0], r, p);
      } else {
        UnescapeEscape(d[1..], z', Shift(p, d[0]));
        UnescapePlain(d[0], r, p);
      }
    }
  }

  /** The stored bytes end with the last payload byte. */
  lemma {:induction false} EscapeLast(d: seq<Byte>, z: nat)
    requires d != []
    ensures |Escape(d, z)| > 0 && Escape(d, z)[|Escape(d, z)| - 1] == d[|d| - 1]
  {
    if |d| > 1 { EscapeLast(d[1..], CountZeros(z, d[0])); }
  }
}
