/** The operation log of slots and buffers: a ring that keeps the newest entries. */
module LogRing {
  import opened Rings

  /** The last `n` entries, or all of them. */
  function Newest<T>(log: seq<T>, n: nat): seq<T> {
    if |log| <= n then log else log[|log| - n..]
  }

  /** As many as there is room for, and the last ones. */
  lemma NewestAre<T>(log: seq<T>, n: nat)
    ensures var m := Newest(log, n);
            |m| == (if |log| < n then |log| else n) && forall k :: 0 <= k < |m| ==> m[k] == log[|log| - |m| + k]
  {
  }

  /** The entry behind the newest one takes the next place, the oldest one's if the ring is full. */
  lemma Written<T(!new)>(es: seq<T>, read: nat, log: seq<T>, e: T)
    requires read < |es| && Holds(es, read, Newest(log, |es|))
    ensures var n, kept, next := |es|, Newest(log, |es|), Newest(log + [e], |es|);
            var w := Around(read, |kept|, n);
            var r := if |kept| < n then read else if read + 1 >= n then 0 else read + 1;
            && |kept| <= n && r < n && Holds(es[w := e], r, next) && |next| == (if |kept| < n then |kept| + 1 else n)
            && Around(r, |next|, n) == (if w + 1 >= n then 0 else w + 1)
  {
    hide Holds;
    var n, kept := |es|, Newest(log, |es|);
    assert |kept| <= n && Newest(log + [e], n) == if |kept| < n then kept + [e] else kept[1..] + [e];
    if |kept| < n { Added(es, read, kept, e); } else { Replaced(es, read, kept, e); }
  }

  class Ring<T(0, !new)> {
    const entries: array<T>
    var count: nat
    var write: nat
    var read: nat
    ghost var log: seq<T>        // written since the last dump

    /** The ring holds the newest entries, oldest at the read index. */
    ghost predicate Valid()
      reads this, entries
    {
      Keeps(Newest(log, entries.Length))
    }

    ghost predicate Keeps(kept: seq<T>)
      reads this, entries
    {
      && read < entries.Length && Holds(entries[..], read, kept)
      && count == |kept| && write == Around(read, count, entries.Length)
    }

    constructor (max: nat)
      requires max > 0
      ensures Valid() && fresh(entries) && entries.Length == max && log == []
    {
      entries := new T[max];
      count := 0;
      write := 0;
      read := 0;
      log := [];
    }

    method Write(e: T)
      requires Valid()
      modifies this, entries
      ensures Valid() && log == old(log) + [e]
    {
      hide Holds, Newest, Around;
      Written(entries[..], read, log, e);
      ghost var es := entries[..];
      entries[write] := e;
      assert entries[..] == es[write := e];
      write := write + 1;
      if write >= entries.Length {
        write := 0;
      }
      if count < entries.Length {
        count := count + 1;
      } else {
        read := read + 1;
        if read >= entries.Length {
          read := 0;
        }
      }
      log := log + [e];
    }

    method TakeOldest(ghost kept: seq<T>) returns (e: T)
      requires Keeps(kept) && kept != []
      modifies this`read, this`count
      ensures Keeps(kept[1..]) && [e] + kept[1..] == kept
    {
      hide Holds;
      Dropped(entries[..], read, kept);
      e := entries[read];
      read := read + 1;
      if read >= entries.Length {
        read := 0;
      }
      count := count - 1;
    }

    /** Takes the entries out, oldest first, and leaves the ring empty. */
    method Dump() returns (out: seq<T>)
      requires Valid()
      modifies this
      ensures Valid() && out == Newest(old(log), entries.Length) && log == [] && count == 0 && read == write
    {
      hide Holds, Newest;
      ghost var kept := Newest(log, entries.Length);
      out := [];
      while count > 0
        invariant Keeps(kept) && Newest(old(log), entries.Length) == out + kept
        decreases count
      {
        var e := TakeOldest(kept);
        out := out + [e];
        kept := kept[1..];
      }
      log := [];
      NoneNewest(entries.Length);
    }

    lemma NoneNewest(n: nat)
      ensures Newest<T>([], n) == []
    {
    }
  }
}
