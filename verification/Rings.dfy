/** Rings of entries read and written around the end of an array. */
module Rings {

  /** `k` places behind `r`, around a ring of `n`. */
  function Around(r: nat, k: nat, n: nat): nat
    requires r < n && k <= n
    ensures Around(r, k, n) < n
  {
    if r + k < n then r + k else r + k - n
  }

  ghost predicate Holds<T(!new)>(es: seq<T>, read: nat, kept: seq<T>) {
    read < |es| && |kept| <= |es| && forall k {:trigger kept[k]} :: 0 <= k < |kept| ==> es[Around(read, k, |es|)] == kept[k]
  }

  /** There is room: the entry behind the last one is free. */
  lemma Added<T(!new)>(es: seq<T>, read: nat, kept: seq<T>, e: T)
    requires Holds(es, read, kept) && |kept| < |es|
    ensures Holds(es[Around(read, |kept|, |es|) := e], read, kept + [e])
  {
  }

  /** The ring is full: the oldest entry is overwritten. */
  lemma Replaced<T(!new)>(es: seq<T>, read: nat, kept: seq<T>, e: T)
    requires Holds(es, read, kept) && |kept| == |es|
    ensures Holds(es[read := e], Around(read, 1, |es|), kept[1..] + [e])
    ensures Around(read, |es|, |es|) == read
  {
    var n := |es|;
    forall k | 0 <= k < n ensures es[read := e][Around(Around(read, 1, n), k, n)] == (kept[1..] + [e])[k] {
      if k < n - 1 { assert Around(Around(read, 1, n), k, n) == Around(read, k + 1, n); assert kept[k + 1] == es[Around(read, k + 1, n)]; }
    }
  }

  lemma Dropped<T(!new)>(es: seq<T>, read: nat, kept: seq<T>)
    requires Holds(es, read, kept) && kept != []
    ensures read < |es| && kept[0] == es[read] && Holds(es, Around(read, 1, |es|), kept[1..])
  {
    var n := |es|;
    forall k | 0 <= k < |kept| - 1 ensures es[Around(Around(read, 1, n), k, n)] == kept[1..][k] {
      assert Around(Around(read, 1, n), k, n) == Around(read, k + 1, n);
      assert kept[k + 1] == es[Around(read, k + 1, n)];
    }
  }
}
