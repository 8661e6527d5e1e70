/** The hashed string dictionary: parallel key, value and hash arrays, refining a map. */
module Dictionary {
  import opened Common
  import opened Bits

  type Char = c: int | 0 < c < 256 witness 1
  type Text = seq<Char>

  const MIN_SIZE: nat := 128

  // ----- the hash

  /** Unsigned 32-bit addition. */
  function Plus(a: nat, b: nat): nat {
    (a + b) % 0x1_0000_0000
  }

  /** Unsigned 32-bit shift. */
  function Left(a: nat, k: nat): nat {
    Low(Shl(a, k), 32)
  }

  function Xor(a: nat, b: nat): nat {
    if a == 0 && b == 0 then 0
    else 2 * Xor(a / 2, b / 2) + (if a % 2 != b % 2 then 1 else 0)
  }

  function Mix(h: nat, c: Char): nat {
    var a := Plus(h, c);
    var b := Plus(a, Left(a, 10));
    Xor(b, Shr(b, 6))
  }

  function Mixed(key: Text): nat {
    if key == [] then 0 else Mix(Mixed(key[..|key| - 1]), key[|key| - 1])
  }

  function Hash(key: Text): nat {
    var a := Mixed(key);
    var b := Plus(a, Left(a, 3));
    var c := Xor(b, Shr(b, 11));
    Plus(c, Left(c, 15))
  }

  lemma XorStep(a: nat, b: nat)
    ensures Xor(a, b) == 2 * Xor(a / 2, b / 2) + Digit(a % 2 != b % 2)
    ensures Xor(0, 0) == 0
  {
  }

  /** Exclusive or, bit by bit. */
  lemma {:induction false} XorAt(a: nat, b: nat, k: nat)
    ensures BitAt(Xor(a, b), k) == (BitAt(a, k) != BitAt(b, k))
  {
    hide BitAt, Xor;
    XorStep(a, b);
    if k == 0 {
      NoPower(a);
      NoPower(b);
      NoPower(Xor(a, b));
    } else {
      HalfDown(a, k);
      HalfDown(b, k);
      HalfDown(Xor(a, b), k);
      XorAt(a / 2, b / 2, k - 1);
    }
  }

  lemma FirstXorHalf()
    ensures Xor(194, 3) == 193
  {
    hide Xor;
    XorStep(1, 0); XorStep(3, 0); XorStep(6, 0); XorStep(12, 0);
    XorStep(24, 0); XorStep(48, 0); XorStep(97, 1); XorStep(194, 3);
  }

  lemma FirstXor()
    ensures Xor(99425, 1553) == 98928
  {
    hide Xor;
    FirstXorHalf();
    XorStep(388, 6); XorStep(776, 12); XorStep(1553, 24); XorStep(3107, 48);
    XorStep(6214, 97); XorStep(12428, 194); XorStep(24856, 388); XorStep(49712, 776);
    XorStep(99425, 1553);
  }

  lemma SecondXorHalf()
    ensures Xor(869, 0) == 869
  {
    hide Xor;
    XorStep(1, 0); XorStep(3, 0); XorStep(6, 0); XorStep(13, 0);
    XorStep(27, 0); XorStep(54, 0); XorStep(108, 0); XorStep(217, 0);
    XorStep(434, 0); XorStep(869, 0);
  }

  lemma SecondXor()
    ensures Xor(890352, 434) == 889922
  {
    hide Xor;
    SecondXorHalf();
    XorStep(1738, 0); XorStep(3477, 1); XorStep(6955, 3); XorStep(13911, 6);
    XorStep(27823, 13); XorStep(55647, 27); XorStep(111294, 54); XorStep(222588, 108);
    XorStep(445176, 217); XorStep(890352, 434);
  }

  lemma Shifted(a: nat, k: nat)
    ensures Left(a, k) == a * Pow2(k) % 0x1_0000_0000 && Shr(a, k) == a / Pow2(k)
  {
    hide Shl, Shr, Low, Pow2;
    ShlPow(a, k);
    Pow32();
    LowMod(Shl(a, k), 32);
    SplitAt(a, k);
    ShlPow(Shr(a, k), k);
    LowUnder(a, k);
    Quotient(a, Pow2(k), Shr(a, k), Low(a, k));
  }

  lemma LowUnder(a: nat, k: nat)
    ensures Low(a, k) < Pow2(k)
  {
    hide Shl, Shr, Low, Pow2;
    SplitAt(a, k);
  }

  /** The published value of the one-at-a-time hash for the one-letter key "a". */
  lemma KnownHash()
    ensures Hash([0x61]) == 0xca2e_9442
  {
    hide Xor, Left, Shr, Pow2;
    FirstXor();
    SecondXor();
    Shifted(97, 10);
    Shifted(99425, 6);
    Shifted(98928, 3);
    Shifted(890352, 11);
    Shifted(889922, 15);
    KnownPowers();
    assert [0x61 as Char][..0] == [];
    assert Mixed([0x61]) == Mix(0, 0x61) == 98928;
  }

  lemma KnownPowers()
    ensures Pow2(3) == 8 && Pow2(6) == 64 && Pow2(10) == 1024 && Pow2(11) == 2048 && Pow2(15) == 32768
  {
    assert Pow2(6) == 64;
    assert Pow2(10) == 1024;
    assert Pow2(13) == 8192;
  }

  method ComputeHash(key: Text) returns (hash: nat)
    ensures hash == Hash(key)
  {
    hide Plus, Left, Xor, Shr;
    hash := 0;
    for i := 0 to |key|
      invariant hash == Mixed(key[..i])
    {
      assert key[..i + 1][..i] == key[..i];
      hash := Plus(hash, key[i]);
      hash := Plus(hash, Left(hash, 10));
      hash := Xor(hash, Shr(hash, 6));
    }
    assert key[..|key|] == key;
    hash := Plus(hash, Left(hash, 3));
    hash := Xor(hash, Shr(hash, 11));
    hash := Plus(hash, Left(hash, 15));
  }

  // ----- slots

  function Occupied(ks: seq<Option<Text>>): nat {
    if ks == [] then 0 else (if ks[0].Some? then 1 else 0) + Occupied(ks[1..])
  }

  lemma {:induction false} OccupiedUpdate(ks: seq<Option<Text>>, i: nat, k: Option<Text>)
    requires i < |ks|
    ensures Occupied(ks[i := k]) == Occupied(ks) - (if ks[i].Some? then 1 else 0) + (if k.Some? then 1 else 0)
  {
    if i > 0 {
      assert ks[i := k][1..] == ks[1..][i - 1 := k];
      OccupiedUpdate(ks[1..], i - 1, k);
    } else {
      assert ks[i := k][1..] == ks[1..];
    }
  }

  /** With fewer keys than slots one slot is empty. */
  lemma {:induction false} EmptySlot(ks: seq<Option<Text>>) returns (e: nat)
    requires Occupied(ks) < |ks|
    ensures e < |ks| && ks[e] == None
  {
    if ks[0].None? {
      e := 0;
    } else {
      e := EmptySlot(ks[1..]);
      e := e + 1;
    }
  }

  lemma {:induction false} OccupiedBound(ks: seq<Option<Text>>)
    ensures Occupied(ks) <= |ks|
  {
    if ks != [] { OccupiedBound(ks[1..]); }
  }

  lemma {:induction false} OccupiedGrown(ks: seq<Option<Text>>, more: seq<Option<Text>>)
    requires forall i :: 0 <= i < |more| ==> more[i] == None
    ensures Occupied(ks + more) == Occupied(ks)
  {
    if ks == [] {
      assert ks + more == more;
      if more != [] { OccupiedGrown([], more[1..]); assert [] + more[1..] == more[1..]; }
    } else {
      assert (ks + more)[1..] == ks[1..] + more;
      OccupiedGrown(ks[1..], more);
    }
  }

  ghost predicate Unique(ks: seq<Option<Text>>) {
    forall i, j {:trigger ks[i], ks[j]} :: 0 <= i < j < |ks| && ks[i].Some? ==> ks[i] != ks[j]
  }

  ghost predicate Mapped(ks: seq<Option<Text>>, vs: seq<Option<Text>>, hs: seq<nat>, m: map<Text, Option<Text>>)
    requires |ks| == |vs| == |hs|
  {
    forall i {:trigger ks[i]} :: 0 <= i < |ks| && ks[i].Some? ==>
      ks[i].value in m && m[ks[i].value] == vs[i] && hs[i] == Hash(ks[i].value)
  }

  ghost predicate AllIn(ks: seq<Option<Text>>, m: map<Text, Option<Text>>) {
    forall k {:trigger k in m} :: k in m ==> Some(k) in ks
  }

  /** Keys are unique and hashed, and the map has exactly the occupied slots. */
  ghost predicate Describes(ks: seq<Option<Text>>, vs: seq<Option<Text>>, hs: seq<nat>, m: map<Text, Option<Text>>) {
    |ks| == |vs| == |hs| && Unique(ks) && Mapped(ks, vs, hs, m) && AllIn(ks, m)
  }

  ghost predicate Absent(ks: seq<Option<Text>>, key: Text) {
    forall i {:trigger ks[i]} :: 0 <= i < |ks| ==> ks[i] != Some(key)
  }

  lemma Replaced(ks: seq<Option<Text>>, vs: seq<Option<Text>>, hs: seq<nat>, m: map<Text, Option<Text>>, i: nat, key: Text, v: Option<Text>)
    requires Describes(ks, vs, hs, m) && i < |ks| && ks[i] == Some(key)
    ensures Describes(ks, vs[i := v], hs, m[key := v]) && key in m
  {
  }

  lemma Added(ks: seq<Option<Text>>, vs: seq<Option<Text>>, hs: seq<nat>, m: map<Text, Option<Text>>, i: nat, key: Text, v: Option<Text>)
    requires Describes(ks, vs, hs, m) && i < |ks| && ks[i] == None && Absent(ks, key)
    ensures Describes(ks[i := Some(key)], vs[i := v], hs[i := Hash(key)], m[key := v]) && key !in m
  {
    hide Unique, AllIn, Hash;
    if key in m { var j := SlotOf(ks, m, key); }
    AddedUnique(ks, i, key);
    AddedIn(ks, m, i, key, v);
  }

  lemma AddedUnique(ks: seq<Option<Text>>, i: nat, key: Text)
    requires Unique(ks) && i < |ks| && ks[i] == None && Absent(ks, key)
    ensures Unique(ks[i := Some(key)])
  {
  }

  lemma AddedIn(ks: seq<Option<Text>>, m: map<Text, Option<Text>>, i: nat, key: Text, v: Option<Text>)
    requires AllIn(ks, m) && i < |ks| && ks[i] == None
    ensures AllIn(ks[i := Some(key)], m[key := v])
  {
    var ls := ks[i := Some(key)];
    forall k | k in m[key := v] ensures Some(k) in ls {
      assert ls[i] == Some(key);
      if k != key {
        var j := SlotOf(ks, m, k);
        assert ls[j] == Some(k);
      }
    }
  }

  lemma SlotOf(ks: seq<Option<Text>>, m: map<Text, Option<Text>>, key: Text) returns (j: nat)
    requires AllIn(ks, m) && key in m
    ensures j < |ks| && ks[j] == Some(key)
  {
    assert Some(key) in ks;
    j :| j < |ks| && ks[j] == Some(key);
  }

  lemma Removed(ks: seq<Option<Text>>, vs: seq<Option<Text>>, hs: seq<nat>, m: map<Text, Option<Text>>, i: nat, key: Text)
    requires Describes(ks, vs, hs, m) && i < |ks| && ks[i] == Some(key)
    ensures Describes(ks[i := None], vs[i := None], hs[i := 0], m - {key}) && key in m
  {
    hide AllIn, Hash;
    RemovedIn(ks, m, i, key);
  }

  lemma RemovedIn(ks: seq<Option<Text>>, m: map<Text, Option<Text>>, i: nat, key: Text)
    requires AllIn(ks, m) && i < |ks| && ks[i] == Some(key)
    ensures AllIn(ks[i := None], m - {key})
  {
    var ls := ks[i := None];
    forall k | k in m - {key} ensures Some(k) in ls {
      var j := SlotOf(ks, m, k);
      assert ls[j] == Some(k);
    }
  }

  /** Slots of a zeroed array. */
  ghost function Blank<T>(n: nat, zero: T): seq<T> {
    seq(n, _ => zero)
  }

  lemma Grown(ks: seq<Option<Text>>, vs: seq<Option<Text>>, hs: seq<nat>, m: map<Text, Option<Text>>, n: nat)
    requires Describes(ks, vs, hs, m)
    ensures Describes(ks + Blank(n, None), vs + Blank(n, None), hs + Blank(n, 0), m)
  {
  }

  lemma DropFirst(ks: seq<Option<Text>>, vs: seq<Option<Text>>, hs: seq<nat>, m: map<Text, Option<Text>>)
    requires Describes(ks, vs, hs, m) && ks != []
    ensures Describes(ks[1..], vs[1..], hs[1..], if ks[0].Some? then m - {ks[0].value} else m)
    ensures ks[0].Some? ==> ks[0].value in m
  {
    var l := if ks[0].Some? then m - {ks[0].value} else m;
    forall k | k in l ensures Some(k) in ks[1..] {
      var j := SlotOf(ks, m, k);
      assert ks[1..][j - 1] == Some(k);
    }
    forall i, j {:trigger ks[1..][i], ks[1..][j]} | 0 <= i < j < |ks| - 1 && ks[1..][i].Some? ensures ks[1..][i] != ks[1..][j] {
      assert ks[i + 1] != ks[j + 1];
    }
    forall i {:trigger ks[1..][i]} | 0 <= i < |ks| - 1 && ks[1..][i].Some?
      ensures ks[1..][i].value in l && l[ks[1..][i].value] == vs[1..][i] && hs[1..][i] == Hash(ks[1..][i].value)
    {
      assert ks[1..][i] == ks[i + 1];
      assert ks[0].Some? ==> ks[0] != ks[i + 1];
    }
  }

  /** The count of occupied slots is the number of keys. */
  lemma {:induction false} KeyCount(ks: seq<Option<Text>>, vs: seq<Option<Text>>, hs: seq<nat>, m: map<Text, Option<Text>>)
    requires |vs| == |ks| == |hs| && Describes(ks, vs, hs, m)
    ensures |m| == Occupied(ks)
    decreases |ks|
  {
    hide Describes;
    if ks != [] {
      DropFirst(ks, vs, hs, m);
      if ks[0].Some? {
        var l := m - {ks[0].value};
        assert l.Keys == m.Keys - {ks[0].value};
        assert |l| == |l.Keys| && |m| == |m.Keys|;
        KeyCount(ks[1..], vs[1..], hs[1..], l);
      } else {
        KeyCount(ks[1..], vs[1..], hs[1..], m);
      }
    } else {
      EmptyMap(ks, vs, hs, m);
    }
  }

  lemma NoSlots(ks: seq<Option<Text>>, vs: seq<Option<Text>>, hs: seq<nat>)
    requires |ks| == |vs| == |hs| && forall i :: 0 <= i < |ks| ==> ks[i] == None
    ensures Describes(ks, vs, hs, map[]) && Occupied(ks) == 0
  {
    OccupiedGrown([], ks);
    assert [] + ks == ks;
  }

  lemma EmptyMap(ks: seq<Option<Text>>, vs: seq<Option<Text>>, hs: seq<nat>, m: map<Text, Option<Text>>)
    requires Describes(ks, vs, hs, m) && ks == []
    ensures m == map[]
  {
    forall k ensures k !in m {}
  }

  class Dict {
    var size: nat
    var n: nat
    var keys: array<Option<Text>>
    var vals: array<Option<Text>>
    var hashes: array<nat>
    ghost var contents: map<Text, Option<Text>>

    ghost predicate Valid()
      reads this, keys, vals, hashes
    {
      && keys != vals
      && keys.Length == vals.Length == hashes.Length == size && size > 0
      && n == Occupied(keys[..])
      && Describes(keys[..], vals[..], hashes[..], contents)
    }

    constructor (size: nat)
      ensures Valid() && contents == map[] && fresh(keys) && fresh(vals) && fresh(hashes)
      ensures this.size == if size < MIN_SIZE then MIN_SIZE else size
    {
      var s := if size < MIN_SIZE then MIN_SIZE else size;
      this.size := s;
      n := 0;
      hide Describes, Occupied;
      keys := new Option<Text>[s](_ => None);
      vals := new Option<Text>[s](_ => None);
      hashes := new nat[s](_ => 0);
      contents := map[];
      new;
      NoSlots(keys[..], vals[..], hashes[..]);
    }

    /** The slot of a key, or the size. */
    method Find(key: Text) returns (i: nat)
      requires Valid()
      ensures i <= size
      ensures i < size ==> keys[i] == Some(key) && key in contents && contents[key] == vals[i]
      ensures i == size ==> Absent(keys[..], key) && key !in contents
    {
      hide Unique, Mapped, AllIn, Hash, Occupied;
      var hash := ComputeHash(key);
      ghost var ks := keys[..];
      NotHere(ks, contents, key);
      i := 0;
      while i < size
        invariant i <= size
        invariant forall j :: 0 <= j < i ==> ks[j] != Some(key)
      {
        if keys[i].Some? {
          Here(ks, vals[..], hashes[..], contents, i);
          if hash == hashes[i] && keys[i].value == key {
            return;
          }
        }
        i := i + 1;
      }
    }

    method Get(key: Text, def: Option<Text>) returns (v: Option<Text>)
      requires Valid()
      ensures v == if key in contents then contents[key] else def
    {
      var i := Find(key);
      if i < size {
        return vals[i];
      }
      return def;
    }

    /** Doubles the arrays; without memory nothing changes. */
    method Grow(alloc: bool) returns (ok: bool)
      requires Valid()
      modifies this
      ensures Valid() && contents == old(contents) && n == old(n) && ok == alloc
      ensures size == if ok then 2 * old(size) else old(size)
      ensures ok ==> fresh(keys) && fresh(vals) && fresh(hashes) && keys[..] == old(keys[..]) + Blank(old(size), None)
      ensures !ok ==> keys == old(keys) && vals == old(vals) && hashes == old(hashes)
    {
      hide Describes, Occupied;
      if !alloc {
        return false;
      }
      Grown(keys[..], vals[..], hashes[..], contents, size);
      OccupiedGrown(keys[..], Blank(size, None));
      var newKeys := Doubled(keys, None);
      var newVals := Doubled(vals, None);
      var newHashes := Doubled(hashes, 0);
      size := size * 2;
      keys := newKeys;
      vals := newVals;
      hashes := newHashes;
      return true;
    }

    /** A zeroed array of twice the length with a copy in front. */
    static method Doubled<T>(a: array<T>, zero: T) returns (b: array<T>)
      ensures fresh(b) && b[..] == a[..] + Blank(a.Length, zero)
    {
      b := new T[2 * a.Length](_ => zero);
      for i := 0 to a.Length
        invariant forall j :: 0 <= j < i ==> b[j] == a[j]
        invariant forall j :: i <= j < b.Length ==> b[j] == zero
      {
        b[i] := a[i];
      }
    }

    /** The first empty slot from `n` on, around the end. */
    method FreeSlot() returns (i: nat)
      requires Valid() && n < size
      ensures i < size && keys[i] == None
    {
      ghost var e := EmptySlot(keys[..]);
      i := n;
      while keys[i].Some?
        invariant i < size
        decreases if i <= e then e - i else size - i + e
      {
        assert i != e;
        i := i + 1;
        if i == size { i := 0; }
      }
    }

    method Set(key: Option<Text>, val: Option<Text>, alloc: bool) returns (ok: bool)
      requires Valid()
      modifies this, keys, vals, hashes
      ensures Valid()
      ensures ok <==> key.Some? && (key.value in old(contents) || old(n) < old(size) || alloc)
      ensures contents == if ok then old(contents)[key.value := val] else old(contents)
      ensures n == if ok && key.value !in old(contents) then old(n) + 1 else old(n)
    {
      hide Describes, Occupied, Absent;
      if key.None? { return false; }
      var k := key.value;
      var hash := ComputeHash(k);
      if n > 0 {
        var i := Find(k);
        if i < size {
          Replaced(keys[..], vals[..], hashes[..], contents, i, k, val);
          vals[i] := val;
          contents := contents[k := val];
          return true;
        }
      } else {
        NoKeys(keys[..], vals[..], hashes[..], contents, k);
      }
      OccupiedBound(keys[..]);
      if n == size {
        var grown := Grow(alloc);
        if !grown { return false; }
        StillAbsent(old(keys[..]), old(size), k);
      }
      Insert(k, val, hash);
      return true;
    }

    /** Writes a new key into the first empty slot. */
    method Insert(key: Text, val: Option<Text>, hash: nat)
      requires Valid() && n < size && Absent(keys[..], key) && hash == Hash(key)
      modifies this`n, this`contents, keys, vals, hashes
      ensures Valid() && contents == old(contents)[key := val] && key !in old(contents) && n == old(n) + 1
    {
      hide Describes, Occupied, Absent;
      var i := FreeSlot();
      Added(keys[..], vals[..], hashes[..], contents, i, key, val);
      OccupiedUpdate(keys[..], i, Some(key));
      keys[i] := Some(key);
      vals[i] := val;
      hashes[i] := hash;
      n := n + 1;
      contents := contents[key := val];
    }

    method Unset(key: Option<Text>)
      requires Valid()
      modifies this, keys, vals, hashes
      ensures Valid() && size == old(size)
      ensures contents == if key.Some? then old(contents) - {key.value} else old(contents)
      ensures n == if key.Some? && key.value in old(contents) then old(n) - 1 else old(n)
    {
      hide Describes, Occupied;
      if key.None? { return; }
      var i := Find(key.value);
      if i >= size {
        assert contents - {key.value} == contents;
        return;
      }
      Removed(keys[..], vals[..], hashes[..], contents, i, key.value);
      OccupiedUpdate(keys[..], i, None);
      ghost var was := vals[..];
      keys[i] := None;
      if vals[i].Some? {
        vals[i] := None;
      }
      assert vals[..] == was[i := None];
      hashes[i] := 0;
      n := n - 1;
      contents := contents - {key.value};
    }
  }

  lemma Here(ks: seq<Option<Text>>, vs: seq<Option<Text>>, hs: seq<nat>, m: map<Text, Option<Text>>, i: nat)
    requires Describes(ks, vs, hs, m) && i < |ks| && ks[i].Some?
    ensures ks[i].value in m && m[ks[i].value] == vs[i] && hs[i] == Hash(ks[i].value)
  {
  }

  lemma NotHere(ks: seq<Option<Text>>, m: map<Text, Option<Text>>, key: Text)
    requires AllIn(ks, m)
    ensures Absent(ks, key) ==> key !in m
  {
    if key in m { var j := SlotOf(ks, m, key); }
  }

  lemma NoKeys(ks: seq<Option<Text>>, vs: seq<Option<Text>>, hs: seq<nat>, m: map<Text, Option<Text>>, key: Text)
    requires Describes(ks, vs, hs, m) && Occupied(ks) == 0
    ensures Absent(ks, key) && key !in m
  {
    AllEmpty(ks);
  }

  lemma {:induction false} AllEmpty(ks: seq<Option<Text>>)
    requires Occupied(ks) == 0
    ensures forall i :: 0 <= i < |ks| ==> ks[i] == None
  {
    if ks != [] { AllEmpty(ks[1..]); }
  }

  lemma StillAbsent(ks: seq<Option<Text>>, n: nat, key: Text)
    requires Absent(ks, key)
    ensures Absent(ks + Blank(n, None), key)
  {
  }
}
