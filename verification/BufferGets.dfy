/**
 What a get does to the unused buffers, and when it is refused, in terms of the state
 before it; and the order in which unused buffers wait.
 */
module BufferGets {
  import opened Common
  import opened Buffers
  import opened BufferInv
  import opened BufferTheorems
  import opened BufferRuns

  // ----- the search, exactly

  /** The first `k` buffers of the list are too small, and the next one, if any, is not. */
  ghost predicate FitsAt(bs: map<nat, Buffer>, l: seq<nat>, size: nat, k: nat) {
    && k <= |l| && (forall j :: 0 <= j < k ==> l[j] in bs && bs[l[j]].size < size)
    && (k < |l| ==> l[k] in bs && bs[l[k]].size >= size)
  }

  lemma {:induction false} FitExists(bs: map<nat, Buffer>, l: seq<nat>, size: nat) returns (k: nat)
    requires forall b <- l :: b in bs
    ensures FitsAt(bs, l, size, k)
  {
    k := 0;
    if l != [] && bs[l[0]].size < size {
      k := FitExists(bs, l[1..], size);
      forall j | 0 <= j < k + 1 ensures l[j] in bs && bs[l[j]].size < size {
        if j > 0 { assert l[1..][j - 1] == l[j]; }
      }
      k := k + 1;
    }
  }

  /** What the search leaves when the buffer at `k` is the first to fit: the smaller ones in front go in an internal group. */
  ghost predicate Leaves(s: State, i: nat, front: seq<nat>, l: seq<nat>, k: nat, t: State, r: Option<nat>)
    requires k <= |l|
  {
    && i in s.groups && i in t.groups
    && r == (if k < |l| then Some(l[k]) else None)
    && t.groups[i].unusedList
       == front + (if s.groups[i].internal then [] else l[..k]) + (if k < |l| then l[k + 1..] else [])
    && t.groups[i].usedList == s.groups[i].usedList + (if k < |l| then [l[k]] else [])
    && t.buffers.Keys == s.buffers.Keys - (if s.groups[i].internal then Members(l[..k]) else {})
    && t.groups[i].limitCount == s.groups[i].limitCount && t.groups[i].limitSize == s.groups[i].limitSize
  }

  function Members(l: seq<nat>): set<nat> {
    set b <- l
  }

  lemma {:induction false} WithoutAt(front: seq<nat>, l: seq<nat>)
    requires l != [] && l[0] !in front
    ensures Without(front + l, l[0]) == front + l[1..]
  {
    if front == [] {
      assert front + l == l;
    } else {
      assert (front + l)[1..] == front[1..] + l;
      WithoutAt(front[1..], l);
    }
  }

  lemma {:induction false} SearchLeaves(s: State, i: nat, front: seq<nat>, l: seq<nat>, size: nat, k: nat)
    requires Inv(s) && Waiting(s, i, l) && !s.groups[i].orphan && s.groups[i].unusedList == front + l
    requires (s.groups[i].internal ==> front == []) && FitsAt(s.buffers, l, size, k)
    ensures var (t, r) := Search(s, i, l, size); Leaves(s, i, front, l, k, t, r)
    decreases |l|
  {
    hide GroupOk, Home, Internal, Distinct, Sizes, IdsOk, Without, Leaves, Search, Free, Take, FitsAt;
    FitBound(s.buffers, l, size, k);
    if l != [] { WaitingBuffer(s, i, l); }
    SearchTurn(s, i, l, size);
    if l == [] {
      NothingLeaves(s, i, front, l);
    } else {
      NotInFront(s, i, front, l);
      WithoutAt(front, l);
      if k == 0 {
        TakeLeaves(s, i, front, l);
      } else {
        FitsRest(s.buffers, l, size, k);
        if s.groups[i].internal {
          SearchInternal(s, i, l, size, k);
          SearchLeaves(Free(s, l[0]), i, [], l[1..], size, k - 1);
          var (t, r) := Search(Free(s, l[0]), i, l[1..], size);
          FreedLeaves(s, i, l, k, Free(s, l[0]), t, r);
        } else {
          assert front + l == front + [l[0]] + l[1..];
          WaitingTail(s, i, l);
          SearchLeaves(s, i, front + [l[0]], l[1..], size, k - 1);
          var (t, r) := Search(s, i, l[1..], size);
          KeptLeaves(s, i, front, l, k, t, r);
        }
      }
    }
  }

  lemma FitBound(bs: map<nat, Buffer>, l: seq<nat>, size: nat, k: nat)
    requires FitsAt(bs, l, size, k)
    ensures k <= |l| && (l != [] && l[0] in bs ==> (k == 0 <==> bs[l[0]].size >= size))
  {
  }

  lemma SearchTurn(s: State, i: nat, l: seq<nat>, size: nat)
    requires i in s.groups && (l != [] ==> l[0] in s.buffers && s.buffers[l[0]].group == i)
    ensures Search(s, i, l, size)
            == if l == [] then (s, None)
               else if s.buffers[l[0]].size >= size then (Take(s, l[0]), Some(l[0]))
               else Search(if s.groups[i].internal then Free(s, l[0]) else s, i, l[1..], size)
  {
  }

  /** The smaller buffer goes, and the search goes on in the same shape. */
  lemma SearchInternal(s: State, i: nat, l: seq<nat>, size: nat, k: nat)
    requires Inv(s) && Waiting(s, i, l) && !s.groups[i].orphan && s.groups[i].unusedList == [] + l && l != []
    requires k > 0 && FitsAt(s.buffers, l[1..], size, k - 1)
    ensures l[0] in s.buffers && s.buffers[l[0]].group == i
    ensures var u := Free(s, l[0]);
            && Inv(u) && Waiting(u, i, l[1..]) && u.groups[i].unusedList == [] + l[1..] && FitsAt(u.buffers, l[1..], size, k - 1)
            && u.buffers == s.buffers - {l[0]} && i in u.groups && u.groups[i].usedList == s.groups[i].usedList
            && u.groups[i].internal == s.groups[i].internal && u.groups[i].orphan == s.groups[i].orphan
            && u.groups[i].limitCount == s.groups[i].limitCount && u.groups[i].limitSize == s.groups[i].limitSize
  {
    hide GroupOk, Home, Internal, Distinct, Sizes, IdsOk, Without, FitsAt, Free;
    assert [] + l == l && [] + l[1..] == l[1..];
    WaitingBuffer(s, i, l);
    FreeHead(s, i, l);
    FreeBooks(s, l[0]);
    FreeKeeps(s, i, l);
    FitsLater(s.buffers, Free(s, l[0]).buffers, l[1..], size, k - 1);
  }

  lemma NothingLeaves(s: State, i: nat, front: seq<nat>, l: seq<nat>)
    requires i in s.groups && s.groups[i].unusedList == front + l && l == []
    ensures Leaves(s, i, front, l, 0, s, None)
  {
    assert l[..0] == l && Members(l[..0]) == {};
  }

  lemma NotInFront(s: State, i: nat, front: seq<nat>, l: seq<nat>)
    requires Books(s) && i in s.groups && s.groups[i].unusedList == front + l && l != []
    ensures l[0] !in front
  {
    assert GroupOk(s.groups[i], i, s.buffers);
    var m := front + l;
    assert m[|front|] == l[0];
    forall j | 0 <= j < |front| ensures front[j] != l[0] {
      assert m[j] == front[j] && m[j] != m[|front|];
    }
  }

  lemma WaitingTail(s: State, i: nat, l: seq<nat>)
    requires Waiting(s, i, l) && l != []
    ensures Waiting(s, i, l[1..])
  {
  }

  lemma TakeLeaves(s: State, i: nat, front: seq<nat>, l: seq<nat>)
    requires l != [] && l[0] in s.buffers && s.buffers[l[0]].group == i && i in s.groups
    requires s.groups[i].unusedList == front + l && Without(front + l, l[0]) == front + l[1..]
    ensures Leaves(s, i, front, l, 0, Take(s, l[0]), Some(l[0]))
  {
    assert Members(l[..0]) == {};
    assert Take(s, l[0]).buffers.Keys == s.buffers.Keys;
  }

  lemma FitsRest(bs: map<nat, Buffer>, l: seq<nat>, size: nat, k: nat)
    requires FitsAt(bs, l, size, k) && k > 0
    ensures FitsAt(bs, l[1..], size, k - 1) && bs[l[0]].size < size
  {
    forall j | 0 <= j < k - 1 ensures l[1..][j] in bs && bs[l[1..][j]].size < size {
      assert l[1..][j] == l[j + 1];
    }
  }

  lemma FitsLater(bs: map<nat, Buffer>, cs: map<nat, Buffer>, l: seq<nat>, size: nat, k: nat)
    requires FitsAt(bs, l, size, k) && forall b <- l :: b in bs ==> b in cs && cs[b] == bs[b]
    ensures FitsAt(cs, l, size, k)
  {
  }

  lemma FreeKeeps(s: State, i: nat, l: seq<nat>)
    requires l != [] && l[0] in s.buffers && s.buffers[l[0]].group == i && i in s.groups && !s.buffers[l[0]].used && l[0] !in l[1..]
    ensures var u := Free(s, l[0]);
            && u.buffers == s.buffers - {l[0]} && i in u.groups && u.groups[i].usedList == s.groups[i].usedList
            && u.groups[i].internal == s.groups[i].internal && u.groups[i].orphan == s.groups[i].orphan
            && u.groups[i].limitCount == s.groups[i].limitCount && u.groups[i].limitSize == s.groups[i].limitSize
            && forall b <- l[1..] :: b in s.buffers ==> b in u.buffers && u.buffers[b] == s.buffers[b]
  {
  }

  lemma FreedLeaves(s: State, i: nat, l: seq<nat>, k: nat, u: State, t: State, r: Option<nat>)
    requires 0 < k <= |l| && i in s.groups && i in u.groups && s.groups[i].internal && u.groups[i].internal
    requires u.buffers == s.buffers - {l[0]} && u.groups[i].usedList == s.groups[i].usedList
    requires u.groups[i].limitCount == s.groups[i].limitCount && u.groups[i].limitSize == s.groups[i].limitSize
    requires Leaves(u, i, [], l[1..], k - 1, t, r)
    ensures Leaves(s, i, [], l, k, t, r)
  {
    assert l[..k] == [l[0]] + l[1..][..k - 1];
    assert Members(l[..k]) == {l[0]} + Members(l[1..][..k - 1]);
    assert k < |l| ==> l[1..][k - 1] == l[k] && l[1..][k..] == l[k + 1..];
  }

  lemma KeptLeaves(s: State, i: nat, front: seq<nat>, l: seq<nat>, k: nat, t: State, r: Option<nat>)
    requires 0 < k <= |l| && i in s.groups && !s.groups[i].internal
    requires Leaves(s, i, front + [l[0]], l[1..], k - 1, t, r)
    ensures Leaves(s, i, front, l, k, t, r)
  {
    assert l[..k] == [l[0]] + l[1..][..k - 1];
    assert k < |l| ==> l[1..][k - 1] == l[k] && l[1..][k..] == l[k + 1..];
  }

  /**
   The search takes the first unused buffer that is large enough.  In an internal group
   exactly the smaller ones in front of it are released, or all when none fits; in an
   external group none is.
   */
  lemma FoundExactly(s: State, i: nat, size: nat, k: nat)
    requires Inv(s) && i in s.groups && !s.groups[i].orphan && FitsAt(s.buffers, s.groups[i].unusedList, size, k)
    ensures var (t, r) := Found(s, i, size); Leaves(s, i, [], s.groups[i].unusedList, k, t, r)
  {
    hide GroupOk, Home, Internal, Leaves;
    WaitingSelf(s, i);
    assert s.groups[i].unusedList == [] + s.groups[i].unusedList;
    SearchLeaves(s, i, [], s.groups[i].unusedList, size, k);
  }

  // ----- refusals

  /** A new buffer would be larger than the size limit, or the used ones alone reach the count limit. */
  predicate Full(g: Group, size: nat) {
    || (g.limitSize != 0 && size > g.limitSize)
    || (g.limitCount != 0 && |g.usedList| >= g.limitCount)
  }

  /** When a get comes back without a buffer, told from the state before it. */
  lemma GetRefusedIff(s: State, i: nat, size: nat, alloc: bool)
    requires Inv(s) && i in s.groups && !s.groups[i].orphan
    ensures GetBuffer(s, i, size, alloc).1 == None
            <==> size == 0
                 || (FitsAt(s.buffers, s.groups[i].unusedList, size, |s.groups[i].unusedList|)
                     && (!s.groups[i].internal || !alloc || Full(s.groups[i], size)))
  {
    hide GroupOk, Home, Internal, Search, FitsAt;
    if size > 0 {
      var l := s.groups[i].unusedList;
      UnusedKnown(s, i);
      var k := FitExists(s.buffers, l, size);
      FitLast(s, i, size, k);
      FoundExactly(s, i, size, k);
      WaitingSelf(s, i);
      SearchInv(s, i, l, size);
      var (t, r) := Found(s, i, size);
      if r == None { ListsCount(t, i); }
    }
  }

  lemma UnusedKnown(s: State, i: nat)
    requires Books(s) && i in s.groups
    ensures forall b <- s.groups[i].unusedList :: b in s.buffers
  {
    assert GroupOk(s.groups[i], i, s.buffers);
    forall b | b in s.groups[i].unusedList ensures b in s.buffers { assert Listed(s.buffers, b, i, false); }
  }

  lemma FitLast(s: State, i: nat, size: nat, k: nat)
    requires i in s.groups && FitsAt(s.buffers, s.groups[i].unusedList, size, k)
    ensures k <= |s.groups[i].unusedList|
    ensures FitsAt(s.buffers, s.groups[i].unusedList, size, |s.groups[i].unusedList|) <==> k == |s.groups[i].unusedList|
  {
  }

  lemma ListsCount(s: State, i: nat)
    requires Books(s) && i in s.groups
    ensures s.groups[i].count == |s.groups[i].usedList| + |s.groups[i].unusedList|
  {
    assert GroupOk(s.groups[i], i, s.buffers);
  }

  /** A group at its count limit whose unused buffers are all too small gets a new one all the same: they make room. */
  lemma SmallOnesMakeRoom(s: State, i: nat, size: nat)
    requires Inv(s) && i in s.groups && !s.groups[i].orphan && s.groups[i].internal && size > 0
    requires FitsAt(s.buffers, s.groups[i].unusedList, size, |s.groups[i].unusedList|) && !Full(s.groups[i], size)
    ensures var (t, r) := GetBuffer(s, i, size, true);
            && r == Some(s.made) && i in t.groups && t.groups[i].unusedList == [] && t.groups[i].usedList == s.groups[i].usedList + [s.made]
            && t.buffers.Keys == s.buffers.Keys - Members(s.groups[i].unusedList) + {s.made}
  {
    hide GroupOk, Home, Internal, Search, FitsAt;
    var l := s.groups[i].unusedList;
    FoundExactly(s, i, size, |l|);
    WaitingSelf(s, i);
    SearchInv(s, i, l, size);
    var (t, r) := Found(s, i, size);
    ListsCount(t, i);
    assert l[..|l|] == l;
  }

  /** No call makes a buffer past a limit that is set. */
  lemma NewWithinLimits(s: State, c: Call, b: nat)
    requires Inv(s) && Legal(s, c) && b in Next(s, c).buffers && b !in s.buffers
    ensures var t := Next(s, c); var v := t.buffers[b];
            && v.group in t.groups
            && (t.groups[v.group].limitCount != 0 ==> t.groups[v.group].count <= t.groups[v.group].limitCount)
            && (t.groups[v.group].limitSize != 0 ==> v.size <= t.groups[v.group].limitSize)
  {
    hide GroupOk, Home, Internal, IdsOk, PutGroup, ClearGroup, IdGiven, Search, Release;
    StepBuffers(s, c);
    assert Descends(s, c, Next(s, c), b);
    if c.Get? {
      WaitingSelf(s, c.id);
      SearchInv(s, c.id, s.groups[c.id].unusedList, c.size);
      GetNew(s, c.id, c.size, c.alloc, b);
    }
  }

  lemma GetNew(s: State, i: nat, size: nat, alloc: bool, b: nat)
    requires Inv(s) && i in s.groups && !s.groups[i].orphan
    requires b in GetBuffer(s, i, size, alloc).0.buffers && b !in s.buffers
    ensures var t := GetBuffer(s, i, size, alloc).0; var v := t.buffers[b];
            && v.group == i && i in t.groups
            && (t.groups[i].limitCount != 0 ==> t.groups[i].count <= t.groups[i].limitCount)
            && (t.groups[i].limitSize != 0 ==> v.size <= t.groups[i].limitSize)
  {
    hide GroupOk, Home, Internal, IdsOk, Search;
    WaitingSelf(s, i);
    SearchInv(s, i, s.groups[i].unusedList, size);
  }

  /** An import is refused for no other reason than its kind, its group, a limit, or the allocator. */
  lemma ImportRefusedIff(s: State, i: nat, kind: nat, size: nat, take: bool, alloc: bool)
    requires Inv(s) && i in s.groups
    ensures var g := s.groups[i];
            ImportBuffer(s, i, kind, size, take, alloc).made == s.made
            <==> g.kind != kind || g.internal || !alloc || (g.limitSize != 0 && size > g.limitSize)
                 || (g.limitCount != 0 && |g.usedList| + |g.unusedList| >= g.limitCount)
  {
    ListsCount(s, i);
  }

  // ----- the order of waiting

  /** Those of `m` that were in `l` stand in the same order, in front of the others. */
  ghost predicate KeepsOrder(l: seq<nat>, m: seq<nat>) {
    forall j, k {:trigger m[j], m[k]} :: 0 <= j < k < |m| && m[k] in l ==> exists a, b :: 0 <= a < b < |l| && l[a] == m[j] && l[b] == m[k]
  }

  lemma SameOrder(l: seq<nat>)
    ensures KeepsOrder(l, l) && KeepsOrder(l, [])
  {
  }

  lemma JoinOrder(l: seq<nat>, b: nat)
    requires b !in l
    ensures KeepsOrder(l, l + [b])
  {
  }

  lemma {:induction false} WithoutOrder(l: seq<nat>, b: nat)
    ensures KeepsOrder(l, Without(l, b))
    ensures forall x <- Without(l, b) :: x in l
  {
    if l != [] {
      if l[0] == b {
        TailOrder(l);
      } else {
        WithoutOrder(l[1..], b);
        HeadOrder(l, Without(l[1..], b));
      }
    }
  }

  lemma TailOrder(l: seq<nat>)
    requires l != []
    ensures KeepsOrder(l, l[1..])
  {
    var m := l[1..];
    forall j, k | 0 <= j < k < |m| ensures exists a, b :: 0 <= a < b < |l| && l[a] == m[j] && l[b] == m[k] {
      assert l[j + 1] == m[j] && l[k + 1] == m[k];
    }
  }

  lemma HeadOrder(l: seq<nat>, r: seq<nat>)
    requires l != [] && KeepsOrder(l[1..], r) && forall x <- r :: x in l[1..]
    ensures KeepsOrder(l, [l[0]] + r) && forall x <- [l[0]] + r :: x in l
  {
    var m := [l[0]] + r;
    forall j, k | 0 <= j < k < |m| ensures exists a, b :: 0 <= a < b < |l| && l[a] == m[j] && l[b] == m[k] {
      if j == 0 {
        assert m[k] == r[k - 1];
        var b :| 0 <= b < |l[1..]| && l[1..][b] == r[k - 1];
        assert l[b + 1] == m[k] && l[0] == m[j];
      } else {
        assert m[j] == r[j - 1] && m[k] == r[k - 1];
        var a, b :| 0 <= a < b < |l[1..]| && l[1..][a] == r[j - 1] && l[1..][b] == r[k - 1];
        assert l[a + 1] == m[j] && l[b + 1] == m[k];
      }
    }
  }

  /** No call changes the order in which the unused buffers of a group wait; a buffer that joins them waits last. */
  lemma OrderStep(s: State, c: Call, i: nat)
    requires Inv(s) && Legal(s, c) && i in s.groups && i in Next(s, c).groups
    ensures KeepsOrder(s.groups[i].unusedList, Next(s, c).groups[i].unusedList)
  {
    hide GroupOk, Home, Internal, IdsOk, PutGroup, ClearGroup, GetBuffer, IdGiven, Search, Release, Reuse, Take, Create, KeepsOrder;
    SameOrder(s.groups[i].unusedList);
    if Target(s, c) != i {
      OtherGroups(s, c, i);
    } else {
      match c
      case GroupGet(_, _, _, _, id) => IdFresh(s, id);
      case GroupPut(_) => PutGroupInv(s, i);
      case GroupClear(_) => ClearGroupInv(s, i);
      case LimitConfig(_, _, _) =>
      case Import(_, _, size, take, _) => FreshBuffer(s); UnusedKnown(s, i); CreateOrder(s, i, size, take);
      case Get(_, size, alloc) => GetOrder(s, i, size, alloc);
      case RefInc(b) => TakeOrder(s, b);
      case RefDec(b) => PutOrder(s, b);
    }
  }

  lemma CreateOrder(s: State, i: nat, size: nat, take: bool)
    requires i in s.groups && s.made !in s.groups[i].unusedList
    ensures i in Create(s, i, size, take).groups
    ensures KeepsOrder(s.groups[i].unusedList, Create(s, i, size, take).groups[i].unusedList)
  {
    hide KeepsOrder;
    SameOrder(s.groups[i].unusedList);
    JoinOrder(s.groups[i].unusedList, s.made);
  }

  lemma TakeOrder(s: State, b: nat)
    requires b in s.buffers && s.buffers[b].group in s.groups
    ensures var i := s.buffers[b].group;
            i in Take(s, b).groups && KeepsOrder(s.groups[i].unusedList, Take(s, b).groups[i].unusedList)
  {
    hide KeepsOrder, Without;
    WithoutOrder(s.groups[s.buffers[b].group].unusedList, b);
  }

  /** What the search keeps of the unused list. */
  lemma SliceOrder(l: seq<nat>, front: seq<nat>, k: nat)
    requires k <= |l| && (front == [] || front == l[..k])
    ensures KeepsOrder(l, [] + front + (if k < |l| then l[k + 1..] else []))
  {
    var m := [] + front + (if k < |l| then l[k + 1..] else []);
    forall j, h | 0 <= j < h < |m| ensures exists a, b :: 0 <= a < b < |l| && l[a] == m[j] && l[b] == m[h] {
      var a := if j < |front| then j else j - |front| + k + 1;
      var b := if h < |front| then h else h - |front| + k + 1;
      assert l[a] == m[j] && l[b] == m[h];
    }
  }

  lemma GetOrder(s: State, i: nat, size: nat, alloc: bool)
    requires Inv(s) && i in s.groups && !s.groups[i].orphan
    ensures var t := GetBuffer(s, i, size, alloc).0;
            i in t.groups && KeepsOrder(s.groups[i].unusedList, t.groups[i].unusedList)
  {
    hide GroupOk, Home, Internal, Search, FitsAt, KeepsOrder;
    var l := s.groups[i].unusedList;
    SameOrder(l);
    if size > 0 {
      UnusedKnown(s, i);
      var k := FitExists(s.buffers, l, size);
      FitLast(s, i, size, k);
      FoundExactly(s, i, size, k);
      SliceOrder(l, if s.groups[i].internal then [] else l[..k], k);
    }
  }

  lemma PutOrder(s: State, b: nat)
    requires Inv(s) && Legal(s, RefDec(b))
    ensures var t := DecRef(s, b); var i := s.buffers[b].group;
            i in t.groups ==> KeepsOrder(s.groups[i].unusedList, t.groups[i].unusedList)
  {
    hide GroupOk, Home, Internal, Release, Reuse, KeepsOrder, Without;
    var i := s.buffers[b].group;
    SameOrder(s.groups[i].unusedList);
    KnownBuffer(s, b);
    if s.buffers[b].refs == 1 {
      if Reusable(s, b) {
        NotWaiting(s, b);
        ReuseOrder(s, b);
      } else {
        FreeDropped(s, b);
        ReleaseOrder(s, b);
      }
    }
  }

  lemma NotWaiting(s: State, b: nat)
    requires Inv(s) && b in s.buffers && s.buffers[b].refs > 0
    ensures s.buffers[b].group in s.groups && b !in s.groups[s.buffers[b].group].unusedList && s.buffers[b].used
  {
    KnownBuffer(s, b);
    OneList(s, b, s.buffers[b].group);
  }

  lemma ReuseOrder(s: State, b: nat)
    requires b in s.buffers && s.buffers[b].group in s.groups && s.buffers[b].used
    requires s.buffers[b].refs > 0 && b !in s.groups[s.buffers[b].group].unusedList
    ensures var i := s.buffers[b].group; var t := Reuse(Dropped(s, b), b);
            i in t.groups && t.groups[i].unusedList == s.groups[i].unusedList + [b]
            && KeepsOrder(s.groups[i].unusedList, t.groups[i].unusedList)
  {
    hide KeepsOrder, Without;
    JoinOrder(s.groups[s.buffers[b].group].unusedList, b);
  }

  lemma ReleaseOrder(s: State, b: nat)
    requires b in s.buffers && s.buffers[b].group in s.groups && s.buffers[b].used
    ensures var i := s.buffers[b].group; var t := Release(s, b);
            i in t.groups ==> KeepsOrder(s.groups[i].unusedList, t.groups[i].unusedList)
  {
    hide KeepsOrder, Without;
    var l := s.groups[s.buffers[b].group].unusedList;
    SameOrder(l);
    if l != [] { WithoutOrder(l, l[0]); }
  }
}
