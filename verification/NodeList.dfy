/** The circular doubly linked list behind `mpp_list`: a head node and one node an element. */
module NodeList {
  import opened Common

  datatype Status = Success | Invalid | NoMemory

  /** What a node carries: its key, the size it was added with and the cells behind it. */
  datatype Elem = Elem(key: nat, size: nat, cells: seq<int>)

  class Node {
    var prev: Node?
    var next: Node?
    const elem: Elem

    constructor (elem: Elem)
      ensures this.elem == elem && prev == this && next == this
    {
      this.elem := elem;
      prev := null;
      next := null;
      new;
      prev := this;
      next := this;
    }
  }

  /** The place behind place `i` in a ring of `n`. */
  function After(i: nat, n: nat): nat {
    if i + 1 < n then i + 1 else 0
  }

  /** Successors and predecessors are mutually inverse, all the way around. */
  ghost predicate Circular(r: seq<Node>)
    reads r
  {
    Distinct(r) && forall i {:trigger Joined(r, i)} :: 0 <= i < |r| ==> Joined(r, i)
  }

  ghost predicate Joined(r: seq<Node>, i: nat)
    requires i < |r|
    reads r
  {
    r[i].next == r[After(i, |r|)] && r[After(i, |r|)].prev == r[i]
  }

  lemma Differ(r: seq<Node>, i: nat, j: nat)
    requires Distinct(r) && i < |r| && j < |r| && i != j
    ensures r[i] != r[j]
  {
    if i < j { assert r[i] != r[j]; } else { assert r[j] != r[i]; }
  }

  /** Places before and behind an inserted node. */
  lemma Places(r: seq<Node>, n: Node, k: nat)
    requires Distinct(r) && n !in r && k < |r|
    ensures var s := r[..k + 1] + [n] + r[k + 1..];
            && Distinct(s) && |s| == |r| + 1 && s[k + 1] == n
            && (forall i :: 0 <= i <= k ==> s[i] == r[i]) && (forall i :: k + 1 < i < |s| ==> s[i] == r[i - 1])
  {
  }

  lemma PlacesLeft(r: seq<Node>, k: nat)
    requires Distinct(r) && k < |r|
    ensures var s := r[..k] + r[k + 1..];
            && Distinct(s) && |s| == |r| - 1 && r[k] !in s
            && (forall i :: 0 <= i < k ==> s[i] == r[i]) && (forall i :: k <= i < |s| ==> s[i] == r[i + 1])
  {
  }

  function Elems(r: seq<Node>): (e: seq<Elem>)
    ensures |e| == |r|
  {
    seq(|r|, i requires 0 <= i < |r| => r[i].elem)
  }

  /** What a read of `size` cells copies from a node. */
  function Copied(e: Elem, size: nat): seq<int>
    requires |e.cells| >= e.size
  {
    e.cells[..if size < e.size then size else e.size]
  }

  /** Never more than asked for nor more than there is, and from the start. */
  lemma CopiedCells(e: Elem, size: nat)
    requires |e.cells| >= e.size
    ensures var c := Copied(e, size);
            |c| <= size && |c| <= e.size && (|c| == size || |c| == e.size) && forall k :: 0 <= k < |c| ==> c[k] == e.cells[k]
  {
  }

  /** An element written by the fifo interface carries its size in front. */
  predicate Framed(e: Elem) {
    |e.cells| > 0 && e.cells[0] == |e.cells| - 1 && e.size == |e.cells| - 1
  }

  class List {
    var head: Node?
    var count: nat
    ghost var ring: seq<Node>        // the head, then the elements in order

    /** The nodes form one ring through the head, and the count is the number of the others. */
    ghost predicate Valid()
      reads this, ring
    {
      && (if head == null then ring == [] && count == 0
          else |ring| == count + 1 && ring[0] == head && Circular(ring))
      && forall e <- Contents() :: |e.cells| >= e.size
    }

    ghost function Contents(): (c: seq<Elem>)
      reads this
    {
      if ring == [] then [] else Elems(ring[1..])
    }

    constructor (alloc: bool)
      ensures Valid() && Contents() == [] && fresh(ring) && (head != null <==> alloc)
    {
      head := null;
      count := 0;
      ring := [];
      new;
      if alloc {
        head := new Node(Elem(0, 0, []));
        ring := [head];
      }
    }

    /** `_mpp_list_add` behind the node at place `k`. */
    method Insert(n: Node, p: Node, q: Node, ghost k: nat)
      requires Circular(ring) && k < |ring| && p == ring[k] && q == ring[After(k, |ring|)] && n !in ring
      modifies this`ring, n, ring
      ensures ring == old(ring[..k + 1]) + [n] + old(ring[k + 1..]) && Circular(ring)
    {
      hide Distinct;
      ghost var r := ring;
      Places(r, n, k);
      assert Joined(r, k);
      q.prev := n;
      n.next := q;
      n.prev := p;
      p.next := n;
      ring := r[..k + 1] + [n] + r[k + 1..];
      forall i: nat | i < |ring| ensures Joined(ring, i) {
        if i < k || i > k + 1 {
          var j := if i < k then i else i - 1;
          assert old(Joined(r, j));
          Differ(r, j, k);
          if After(j, |r|) != After(k, |r|) { Differ(r, After(j, |r|), After(k, |r|)); }
        }
      }
    }

    /** `mpp_list_del_init` of the node at place `k`. */
    method Remove(n: Node, ghost k: nat)
      requires Circular(ring) && 0 < k < |ring| && n == ring[k]
      modifies this`ring, ring
      ensures ring == old(ring[..k]) + old(ring[k + 1..]) && Circular(ring)
      ensures n.prev == n && n.next == n
    {
      hide Distinct;
      ghost var r := ring;
      PlacesLeft(r, k);
      assert Joined(r, k) && Joined(r, k - 1);
      Differ(r, k, k - 1);
      Differ(r, k, After(k, |r|));
      var p, q := n.prev, n.next;
      q.prev := p;
      p.next := q;
      n.prev := n;
      n.next := n;
      ring := r[..k] + r[k + 1..];
      forall i: nat | i < |ring| ensures Joined(ring, i) {
        if i < k - 1 || i >= k {
          var j := if i < k - 1 then i else i + 1;
          assert old(Joined(r, j));
          Differ(r, j, k);
          Differ(r, j, k - 1);
          Differ(r, After(j, |r|), k);
          Differ(r, After(j, |r|), After(k, |r|));
        }
      }
    }

    /** Unlinks the element at place `k` and counts it off. */
    method Take(n: Node, ghost k: nat)
      requires Valid() && head != null && 0 < k < |ring| && n == ring[k]
      modifies this`ring, this`count, ring
      ensures Valid() && head == old(head) && count == old(count) - 1
      ensures ring == old(ring[..k]) + old(ring[k + 1..])
      ensures old(|Contents()|) == old(count) && n.elem == old(Contents()[k - 1]) && |n.elem.cells| >= n.elem.size
      ensures Contents() == old(Contents()[..k - 1]) + old(Contents()[k..])
    {
      hide Circular;
      ghost var c := Contents();
      assert n.elem == c[k - 1] && c[k - 1] in c;
      Remove(n, k);
      count := count - 1;
      assert Contents() == c[..k - 1] + c[k..];
      assert forall e <- Contents() :: e in c;
    }

    lemma NoElements()
      requires Valid() && (head == null || count == 0)
      ensures Contents() == []
    {
    }

    /** A new node joins behind place `k`. */
    method Put(e: Elem, p: Node, q: Node, ghost k: nat)
      requires Valid() && head != null && k < |ring| && p == ring[k] && q == ring[After(k, |ring|)] && |e.cells| >= e.size
      modifies this`ring, this`count, ring
      ensures Valid() && head == old(head) && forall n <- ring :: n in old(ring) || fresh(n)
      ensures old(|Contents()|) == old(count) && Contents() == old(Contents()[..k]) + [e] + old(Contents()[k..])
    {
      hide Circular;
      var node := new Node(e);
      ghost var c := Contents();
      Insert(node, p, q, k);
      count := count + 1;
      assert Contents() == c[..k] + [e] + c[k..];
      assert forall x <- Contents() :: x == e || x in c;
    }

    method AddAtHead(data: seq<int>, alloc: bool) returns (ret: Status)
      requires Valid()
      modifies this, ring
      ensures Valid() && (head == null <==> old(head) == null) && forall n <- ring :: n in old(ring) || fresh(n)
      ensures ret == if head == null then Invalid else if alloc then Success else NoMemory
      ensures Contents() == if ret == Success then [Elem(0, |data|, data)] + old(Contents()) else old(Contents())
    {
      hide Valid, Contents;
      ret := Invalid;
      if head != null {
        if !alloc { return NoMemory; }
        Ends();
        Put(Elem(0, |data|, data), head, head.next, 0);
        ret := Success;
      }
    }

    method AddAtTail(data: seq<int>, alloc: bool) returns (ret: Status)
      requires Valid()
      modifies this, ring
      ensures Valid() && (head == null <==> old(head) == null) && forall n <- ring :: n in old(ring) || fresh(n)
      ensures ret == if head == null then Invalid else if alloc then Success else NoMemory
      ensures Contents() == if ret == Success then old(Contents()) + [Elem(0, |data|, data)] else old(Contents())
    {
      hide Valid, Contents;
      ret := Invalid;
      if head != null {
        if !alloc { return NoMemory; }
        Ends();
        Put(Elem(0, |data|, data), head.prev, head, count);
        ret := Success;
      }
    }

    lemma Ends()
      requires Valid() && head != null
      ensures |ring| == count + 1 && ring[0] == head && |Contents()| == count
      ensures head.next == ring[After(0, |ring|)] && head.prev == ring[count]
    {
      assert Joined(ring, 0) && Joined(ring, count);
    }

    /** Takes the first element out and copies at most `size` cells of it. */
    method DelAtHead(size: nat) returns (ret: Status, out: seq<int>)
      requires Valid()
      modifies this, ring
      ensures Valid() && head == old(head) && forall n <- ring :: n in old(ring)
      ensures ret == if old(Contents()) == [] then Invalid else Success
      ensures Contents() == if ret == Success then old(Contents())[1..] else old(Contents())
      ensures ret == Success ==> |old(Contents()[0]).cells| >= old(Contents()[0]).size && out == Copied(old(Contents()[0]), size)
    {
      hide Circular;
      ret, out := Invalid, [];
      if head != null && count > 0 {
        Ends();
        var node := head.next;
        Take(node, 1);
        out := Copied(node.elem, size);
        ret := Success;
      }
    }

    method DelAtTail(size: nat) returns (ret: Status, out: seq<int>)
      requires Valid()
      modifies this, ring
      ensures Valid() && head == old(head) && forall n <- ring :: n in old(ring)
      ensures ret == if old(Contents()) == [] then Invalid else Success
      ensures var c := old(Contents());
              && Contents() == (if ret == Success then c[..|c| - 1] else c)
              && (ret == Success ==> |c[|c| - 1].cells| >= c[|c| - 1].size && out == Copied(c[|c| - 1], size))
    {
      hide Circular;
      ret, out := Invalid, [];
      if head != null && count > 0 {
        Ends();
        var node := head.prev;
        Take(node, count);
        out := Copied(node.elem, size);
        ret := Success;
      }
    }

    /** Writes an element with its size in front. */
    method FifoWr(data: seq<int>, alloc: bool) returns (ret: Status)
      requires Valid()
      modifies this, ring
      ensures Valid() && (head == null <==> old(head) == null) && forall n <- ring :: n in old(ring) || fresh(n)
      ensures ret == if head == null then Invalid else if alloc then Success else NoMemory
      ensures Contents() == if ret == Success then old(Contents()) + [Frame(data)] else old(Contents())
    {
      hide Valid, Contents;
      ret := Invalid;
      if head != null {
        if !alloc { return NoMemory; }
        Ends();
        Put(Frame(data), head.prev, head, count);
        ret := Success;
      }
    }

    /** Reads back an element and its size as they were written. */
    method FifoRd() returns (ret: Status, out: seq<int>, size: int)
      requires Valid() && (Contents() != [] ==> Framed(Contents()[0]))
      modifies this, ring
      ensures Valid() && head == old(head) && forall n <- ring :: n in old(ring)
      ensures ret == if old(Contents()) == [] then Invalid else Success
      ensures Contents() == if ret == Success then old(Contents())[1..] else old(Contents())
      ensures ret == Success ==> old(Contents()[0]).cells == [size] + out && size == |out|
    {
      hide Circular;
      ret, out, size := Invalid, [], 0;
      if head != null && count > 0 {
        Ends();
        var node := head.next;
        Take(node, 1);
        size := node.elem.cells[0];
        out := node.elem.cells[1..][..size];
        assert node.elem.cells == [size] + out;
        ret := Success;
      }
    }

    /** Unlinks every element, hands it to the destructor once, in order, and frees it. */
    method Flush() returns (destroyed: seq<Elem>)
      requires Valid()
      modifies this, ring
      ensures Valid() && head == old(head) && Contents() == [] && destroyed == old(Contents())
    {
      hide Valid, Contents;
      destroyed := [];
      ghost var c := Contents();
      if head == null { NoElements(); }
      if head != null {
        while count > 0
          invariant Valid() && head == old(head) && head != null
          invariant forall i :: 0 <= i < |ring| ==> ring[i] in old(ring)
          invariant c == destroyed + Contents()
          decreases count
        {
          var e := TakeFirst();
          destroyed := destroyed + [e];
        }
        NoElements();
      }
    }

    method TakeFirst() returns (e: Elem)
      requires Valid() && head != null && count > 0
      modifies this`ring, this`count, ring
      ensures Valid() && head == old(head) && count < old(count)
      ensures old(Contents()) == [e] + Contents() && forall i :: 0 <= i < |ring| ==> ring[i] in old(ring)
    {
      hide Circular;
      Ends();
      var node := head.next;
      ghost var c := Contents();
      Take(node, 1);
      assert c == [node.elem] + Contents();
      e := node.elem;
    }

    /**
     Deletion by key, for the first `turns` turns of its search loop.  The loop never
     moves on: it deletes the first element, when that has the key and is not the only
     one, or it repeats its test; a lone element is never looked at.
     */
    method DelByKey(key: nat, size: nat, turns: nat) returns (ended: bool, ret: Status, out: seq<int>)
      requires Valid()
      modifies this, ring
      ensures Valid() && head == old(head)
      ensures ended <==> old(Contents()) == [] || SearchTurns(old(Contents()), key, turns) == None
      ensures var c := old(Contents());
              if ended && |c| > 1 then
                ret == Invalid && Contents() == c[1..] && c[0].key == key
                && |c[0].cells| >= c[0].size && out == Copied(c[0], size)
              else Contents() == c && (ret == if c == [] then Success else Invalid)
    {
      hide Circular;
      ended, ret, out := true, Success, [];
      if head != null && count > 0 {
        Ends();
        SecondJoined();
        ghost var c := Contents();
        var tmp := head.next;
        ret, ended := Invalid, false;
        for turn := 0 to turns
          invariant Valid() && head == old(head) && head != null && count == old(count) && ring == old(ring)
          invariant Contents() == c && tmp == head.next == ring[1] && ret == Invalid && !ended && out == []
          invariant SearchTurns(c, key, turn) == Some(0)
          invariant ring[1].next == ring[After(1, |ring|)]
        {
          if tmp.next == head {
            ended := true;
            Over(c, key, turn + 1, turns);
            return;
          }
          if tmp.elem.key == key {
            Take(tmp, 1);
            out := Copied(tmp.elem, size);
            ended := true;
            Over(c, key, turn + 1, turns);
            return;
          }
        }
      }
    }

    lemma SecondJoined()
      requires Valid() && head != null && count > 0
      ensures Joined(ring, 1) && ring[After(1, |ring|)] == (if count == 1 then head else ring[2])
      ensures count > 1 ==> ring[2] != head
    {
      if count > 1 { Differ(ring, 0, 2); }
    }
  }

  function Frame(data: seq<int>): Elem {
    Elem(0, |data|, [|data|] + data)
  }

  predicate SearchEnds(c: seq<Elem>, key: nat) {
    |c| <= 1 || c[0].key == key
  }

  /** One turn of the search from the element at place `at`: it stays there unless it deletes or ends. */
  function SearchTurn(c: seq<Elem>, at: nat, key: nat): (next: Option<nat>)
    requires at < |c|
  {
    if at == |c| - 1 || c[at].key == key then None else Some(at)
  }

  /** After any number of turns the search has ended, or is where it was. */
  function SearchTurns(c: seq<Elem>, key: nat, n: nat): Option<nat>
    requires c != []
    ensures SearchTurns(c, key, n) == Some(0) || SearchTurns(c, key, n) == None
  {
    if n == 0 then Some(0)
    else
      var at := SearchTurns(c, key, n - 1);
      if at.None? then None else SearchTurn(c, at.value, key)
  }

  /** The search ends exactly when it ends at once. */
  lemma {:induction false} SearchEndsIff(c: seq<Elem>, key: nat)
    requires c != []
    ensures SearchEnds(c, key) <==> exists n: nat {:trigger SearchTurns(c, key, n)} :: SearchTurns(c, key, n) == None
  {
    if SearchEnds(c, key) {
      assert SearchTurns(c, key, 0) == Some(0);
      assert SearchTurns(c, key, 1) == None;
    } else {
      forall n: nat {:trigger SearchTurns(c, key, n)} ensures SearchTurns(c, key, n) == Some(0) { Stuck(c, key, n); }
    }
  }

  /** Once the search is over it stays over. */
  lemma {:induction false} Over(c: seq<Elem>, key: nat, m: nat, n: nat)
    requires c != [] && m <= n && SearchTurns(c, key, m) == None
    ensures SearchTurns(c, key, n) == None
  {
    if m < n { Over(c, key, m, n - 1); }
  }

  lemma {:induction false} Stuck(c: seq<Elem>, key: nat, n: nat)
    requires c != [] && !SearchEnds(c, key)
    ensures SearchTurns(c, key, n) == Some(0)
  {
    if n > 0 { Stuck(c, key, n - 1); }
  }
}
