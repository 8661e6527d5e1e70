/**
 What the allocator promises its clients, over every run of API calls.
 */
module BufferTheorems {
  import opened Common
  import opened Buffers
  import opened BufferInv

  // ----- ids

  /** An id that is given out belongs to no live group. */
  lemma IdFresh(s: State, id: nat)
    requires IdsOk(s) && IdGiven(s, id)
    ensures id !in s.groups && id < LIMIT
    ensures !s.overflowed && s.groupId != 0 ==> id != 0
  {
  }

  lemma {:induction false} Circle(live: set<nat>, from: nat, n: nat)
    requires n <= LIMIT && forall j: nat :: j < n ==> At(from, j) in live
    ensures |live| >= n
  {
    if n > 0 {
      var last := At(from, n - 1);
      forall j: nat | j < n - 1 ensures At(from, j) in live - {last} {
        AtDistinct(from, j, n - 1);
      }
      Circle(live - {last}, from, n - 1);
    }
  }

  lemma AtDistinct(from: nat, j: nat, k: nat)
    requires j < k < LIMIT
    ensures At(from, j) != At(from, k)
  {
  }

  /** The search ends: with fewer live groups than ids one is free. */
  lemma {:induction false} FreeExists(live: set<nat>, from: nat, k: nat) returns (id: nat)
    requires |live| < LIMIT && k <= LIMIT && forall j: nat :: j < k ==> At(from, j) in live
    ensures FirstFree(live, from, id)
    decreases LIMIT - k
  {
    if k == LIMIT { Circle(live, from, k); }
    id := At(from, k);
    if id in live {
      id := FreeExists(live, from, k + 1);
    } else {
      assert FreeAfter(live, from, id, k);
    }
  }

  /** Id 0 is given exactly when, after the counter has wrapped, the search starts at it or finds everything up to it taken. */
  lemma ZeroId(s: State)
    requires IdsOk(s)
    ensures var from := if s.overflowed then s.groupId else 1;
            IdGiven(s, 0) <==> (s.overflowed || s.groupId == 0) && 0 !in s.groups
                               && (from == 0 || forall j :: from <= j < LIMIT ==> j in s.groups)
  {
    hide FreeAfter, At;
    if s.overflowed || s.groupId == 0 {
      var from := if s.overflowed then s.groupId else 1;
      ZeroFree(s.groups.Keys, from);
    }
  }

  lemma ZeroFree(live: set<nat>, from: nat)
    requires from < LIMIT
    ensures FirstFree(live, from, 0) <==> 0 !in live && (from == 0 || forall j :: from <= j < LIMIT ==> j in live)
  {
    hide FreeAfter;
    var k := if from == 0 then 0 else LIMIT - from;
    ZeroAfter(live, from, k);
    if FirstFree(live, from, 0) {
      var m: nat :| m < LIMIT && FreeAfter(live, from, 0, m);
      FreeIsAt(live, from, m);
      if m < k { AtDistinct(from, m, k); } else if k < m { AtDistinct(from, k, m); }
    }
  }

  lemma FreeIsAt(live: set<nat>, from: nat, m: nat)
    requires FreeAfter(live, from, 0, m)
    ensures At(from, m) == 0
  {
  }

  lemma ZeroAfter(live: set<nat>, from: nat, k: nat)
    requires from < LIMIT && k == if from == 0 then 0 else LIMIT - from
    ensures At(from, k) == 0
    ensures FreeAfter(live, from, 0, k) <==> 0 !in live && (from == 0 || forall j :: from <= j < LIMIT ==> j in live)
  {
    if FreeAfter(live, from, 0, k) {
      forall j | from != 0 && from <= j < LIMIT ensures j in live { assert At(from, j - from) == j; }
    }
    if from == 0 || forall j :: from <= j < LIMIT ==> j in live {
      forall j: nat | j < k ensures At(from, j) in live { assert At(from, j) == from + j; }
    }
  }

  // ----- every call keeps the books

  lemma GroupGetInv(s: State, internal: bool, kind: nat, forgets: bool, misc: bool, id: nat)
    requires Inv(s) && IdGiven(s, id)
    ensures var t := AfterId(s, id).(groups := s.groups[id := NewGroup(internal, kind, forgets, misc)]);
            Inv(t) && Internal(t.groups) == Internal(s.groups)
  {
    hide FirstFree, Internal, Home, IdsOk;
    IdFresh(s, id);
    var g := NewGroup(internal, kind, forgets, misc);
    var t := AfterId(s, id).(groups := s.groups[id := g]);
    InternalUpdate(s.groups, id, g);
    NewIds(s, id, g);
    forall h {:trigger t.groups[h]} | h in t.groups ensures GroupOk(t.groups[h], h, t.buffers) {
      if h != id { assert t.groups[h] == s.groups[h]; }
    }
    forall c {:trigger t.buffers[c]} | c in t.buffers ensures Home(t, c) {
      HomeKept(s, id, g, c);
    }
  }

  lemma HomeKept(s: State, id: nat, g: Group, c: nat)
    requires Books(s) && c in s.buffers && id !in s.groups
    ensures Home(AfterId(s, id).(groups := s.groups[id := g]), c)
  {
    assert Home(s, c);
  }

  lemma NewIds(s: State, id: nat, g: Group)
    requires IdsOk(s) && IdGiven(s, id)
    ensures IdsOk(AfterId(s, id).(groups := s.groups[id := g]))
  {
    hide FirstFree;
    IdFresh(s, id);
    assert s.groups[id := g].Keys == s.groups.Keys + {id};
    assert |s.groups[id := g]| == |s.groups[id := g].Keys|;
    assert |s.groups| == |s.groups.Keys|;
  }

  /** What `put_group` leaves: no waiting buffer, and the group only while it has used ones. */
  lemma PutGroupInv(s: State, i: nat)
    requires Inv(s) && i in s.groups && !s.groups[i].orphan
    ensures var t := PutGroup(s, i);
            && Inv(t) && Internal(t.groups) <= Internal(s.groups) && t.peak == s.peak && t.made == s.made
            && t.groups - {i} == s.groups - {i}
            && t.buffers == s.buffers - (set b <- s.groups[i].unusedList)
            && (i in t.groups <==> s.groups[i].usedList != [])
            && (i in t.groups ==> t.groups[i].orphan && t.groups[i].usedList == s.groups[i].usedList && t.groups[i].unusedList == []
                                  && t.groups[i].misc == s.groups[i].misc)
  {
    hide GroupOk, Home, Internal, IdsOk;
    FreeAllInv(s, i, s.groups[i].unusedList);
    FreeAllFlags(s, i, s.groups[i].unusedList);
    var t := FreeAll(s, s.groups[i].unusedList);
    if t.groups[i].usedList == [] {
      DestroyBooks(t, i);
    } else {
      UsageNat(t, i);
      FlagBooks(t, i, t.groups[i].(orphan := true));
    }
  }

  lemma {:induction false} FreeAllFlags(s: State, i: nat, l: seq<nat>)
    requires i in s.groups
    ensures var t := FreeAll(s, l); i in t.groups && t.groups[i].misc == s.groups[i].misc
    decreases |l|
  {
    if l != [] {
      if l[0] in s.buffers && s.buffers[l[0]].group in s.groups {
        FreeAllFlags(Free(s, l[0]), i, l[1..]);
      } else {
        FreeAllFlags(s, i, l[1..]);
      }
    }
  }

  /** What `mpp_buffer_group_reset` leaves: no waiting buffer, and every other one of the group marked. */
  lemma ClearGroupInv(s: State, i: nat)
    requires Inv(s) && i in s.groups && !s.groups[i].orphan
    ensures var t := ClearGroup(s, i);
            && Inv(t) && Internal(t.groups) <= Internal(s.groups) && t.peak == s.peak && t.made == s.made
            && t.groups - {i} == s.groups - {i} && i in t.groups && t.groups[i].unusedList == [] && !t.groups[i].orphan
            && t.buffers.Keys == s.buffers.Keys - (set b <- s.groups[i].unusedList)
            && forall b :: b in t.buffers ==>
                 t.buffers[b] == if s.buffers[b].group == i then s.buffers[b].(discard := true) else s.buffers[b]
  {
    hide GroupOk, Home, Internal, IdsOk;
    var g := s.groups[i];
    DiscardAllInv(s, i, g.usedList);
    var u := DiscardAll(s, g.usedList);
    FreeAllInv(u, i, g.unusedList);
    forall b | b in s.buffers && b !in g.unusedList ensures s.buffers[b].group == i <==> b in g.usedList {
      WhoseBuffer(s, i, b);
    }
  }

  lemma WhoseBuffer(s: State, i: nat, b: nat)
    requires Books(s) && i in s.groups && b in s.buffers
    ensures s.buffers[b].group == i <==> b in s.groups[i].usedList || b in s.groups[i].unusedList
    ensures b in s.groups[i].usedList ==> s.buffers[b].used
    ensures b in s.groups[i].unusedList ==> !s.buffers[b].used
  {
    assert Home(s, b);
    assert GroupOk(s.groups[i], i, s.buffers);
  }

  lemma FitFacts(s: State, i: nat, size: nat, b: nat)
    requires Books(s) && i in s.groups && FirstFit(s.buffers, s.groups[i].unusedList, size, Some(b))
    ensures b in s.buffers && s.buffers[b].group == i && s.buffers[b].size >= size
    ensures !s.buffers[b].used && !s.buffers[b].discard
  {
    hide Sizes, Distinct;
    assert GroupOk(s.groups[i], i, s.buffers);
    assert b in s.groups[i].unusedList;
    assert Listed(s.buffers, b, i, false);
  }

  lemma NoFit(s: State, i: nat, size: nat)
    requires Books(s) && i in s.groups && FirstFit(s.buffers, s.groups[i].unusedList, size, None)
    ensures forall b :: b in s.buffers && s.buffers[b].group == i && !s.buffers[b].used ==> s.buffers[b].size < size
  {
    forall b | b in s.buffers && s.buffers[b].group == i && !s.buffers[b].used ensures s.buffers[b].size < size {
      WhoseBuffer(s, i, b);
    }
  }

  lemma CreateFacts(s: State, i: nat, size: nat, take: bool)
    requires i in s.groups
    ensures var t := Create(s, i, size, take);
            && i in t.groups && t.groups.Keys == s.groups.Keys && t.groups - {i} == s.groups - {i}
            && t.groups[i].misc == s.groups[i].misc && t.groups[i].orphan == s.groups[i].orphan
            && t.buffers == s.buffers[s.made := Buffer(i, s.groups[i].nextIndex, size, if take then 1 else 0, take, false)]
            && t.made == s.made + 1
  {
  }

  /** What a get finds or makes. */
  lemma GetInv(s: State, i: nat, size: nat, alloc: bool)
    requires Inv(s) && i in s.groups && !s.groups[i].orphan
    ensures size == 0 ==> GetBuffer(s, i, size, alloc) == (s, None)
    ensures var (t, r) := GetBuffer(s, i, size, alloc);
            && Inv(t) && i in t.groups
            && (r.Some? ==> && r.value in t.buffers && t.buffers[r.value].group == i && t.buffers[r.value].size >= size
                            && t.buffers[r.value].refs == 1 && !t.buffers[r.value].discard
                            && (r.value in s.buffers ==> !s.buffers[r.value].used)
                            && (r.value !in s.buffers ==> r.value == s.made))
            && (r.None? && size > 0 ==>
                 && (forall b :: b in s.buffers && s.buffers[b].group == i && !s.buffers[b].used ==> s.buffers[b].size < size)
                 && (!s.groups[i].internal || !alloc || AtLimit(t.groups[i], size)))
            && (forall b :: b in s.buffers && (s.buffers[b].used || s.buffers[b].group != i) ==>
                 b in t.buffers && t.buffers[b] == s.buffers[b])
            && (forall b :: b in t.buffers && r != Some(b) ==> b in s.buffers && t.buffers[b] == s.buffers[b])
  {
    hide GroupOk, Home, Internal, IdsOk, FirstFit, Search, Create;
    if size == 0 { return; }
    var l := s.groups[i].unusedList;
    WaitingSelf(s, i);
    SearchInv(s, i, l, size);
    var (u, f) := Found(s, i, size);
    if f.Some? {
      FitFacts(s, i, size, f.value);
    } else {
      NoFit(s, i, size);
      if u.groups[i].internal && !AtLimit(u.groups[i], size) && alloc {
        CreateBooks(u, i, size, true);
        CreateFacts(u, i, size, true);
        FreshBuffer(s);
      }
    }
  }

  /** Every call keeps the invariant. */
  lemma NextInv(s: State, c: Call)
    requires Inv(s) && Legal(s, c)
    ensures Inv(Next(s, c))
  {
    hide Inv, IdGiven, PutGroup, ClearGroup, GetBuffer, Create, Take, Reuse, Release;
    match c
    case GroupGet(internal, kind, forgets, misc, id) => GroupGetInv(s, internal, kind, forgets, misc, id);
    case GroupPut(i) => PutGroupInv(s, i);
    case GroupClear(i) => ClearGroupInv(s, i);
    case LimitConfig(i, size, count) => LimitInv(s, i, size, count);
    case Import(i, kind, size, take, _) => CreateInv(s, i, size, take);
    case Get(i, size, alloc) => GetInv(s, i, size, alloc);
    case RefInc(b) => IncRefInv(s, b);
    case RefDec(b) => DecRefInv(s, b);
  }

  lemma LimitInv(s: State, i: nat, size: nat, count: nat)
    requires Inv(s) && i in s.groups && !s.groups[i].orphan
    ensures Inv(s.(groups := s.groups[i := s.groups[i].(limitSize := size, limitCount := count)]))
  {
    hide GroupOk, Home, Internal, IdsOk;
    FlagBooks(s, i, s.groups[i].(limitSize := size, limitCount := count));
  }

  lemma CreateInv(s: State, i: nat, size: nat, take: bool)
    requires Inv(s) && i in s.groups
    ensures Inv(Create(s, i, size, take))
  {
    hide GroupOk, Home, Internal, IdsOk, Create;
    CreateBooks(s, i, size, take);
  }

  lemma IncRefInv(s: State, b: nat)
    requires Inv(s) && b in s.buffers && s.buffers[b].group in s.groups
    ensures Inv(IncRef(s, b))
  {
    hide GroupOk, Home, Internal, IdsOk, Take;
    KnownBuffer(s, b);
    if s.buffers[b].used {
      MarkBooks(s, b, s.buffers[b].(refs := s.buffers[b].refs + 1));
    } else {
      TakeBooks(s, b);
    }
  }

  /** Releasing does not look at the count. */
  lemma FreeDropped(s: State, b: nat)
    requires b in s.buffers && s.buffers[b].group in s.groups && s.buffers[b].refs > 0
    ensures Free(Dropped(s, b), b) == Free(s, b) && Release(Dropped(s, b), b) == Release(s, b)
  {
    assert Dropped(s, b).buffers - {b} == s.buffers - {b};
  }

  /** A release takes the orphan with it when that was the last buffer and all its bytes were given back. */
  predicate Gone(g: Group, size: nat) {
    g.orphan && g.count == 1 && g.usage == Given(g, size)
  }

  /** A release takes one buffer, an empty waiting one of an orphan with it, and an orphan with its last one. */
  lemma ReleaseInv(s: State, b: nat)
    requires Inv(s) && b in s.buffers && s.buffers[b].group in s.groups && ReleaseSettles(s, b)
    ensures var t := Release(s, b); var i := s.buffers[b].group; var g := s.groups[i];
            && Inv(t) && t.groups - {i} == s.groups - {i} && t.made == s.made
            && t.peak == s.peak && Internal(t.groups) <= Internal(s.groups)
            && (i in t.groups <==> !Gone(g, s.buffers[b].size))
            && (i in t.groups ==> t.groups[i].orphan == g.orphan && t.groups[i].misc == g.misc)
            && (i in t.groups && s.buffers[b].used && g.unusedList == [] ==>
                 t.groups[i].unusedList == [] && t.groups[i].count == g.count - 1)
    ensures var t := Release(s, b); OnlyReleased(s, b, t)
  {
    hide GroupOk, Home, Internal, IdsOk, Sizes, Without;
    var i := s.buffers[b].group;
    var u := Free(s, b);
    FreeBooks(s, b);
    UsageNat(u, i);
    FreeShape(s, b);
    if u.groups[i].orphan && u.groups[i].usage == 0 {
      SettleInv(u, i);
      OnlyReleasedSettle(s, b, u, i);
    } else {
      OnlyReleasedFree(s, b);
    }
  }

  /** Of the other buffers only an empty unused one of the group can go. */
  ghost predicate OnlyReleased(s: State, b: nat, t: State)
    requires b in s.buffers
  {
    && (forall d :: d in t.buffers ==> d != b && d in s.buffers && t.buffers[d] == s.buffers[d])
    && (forall d :: d in s.buffers && d != b && Spared(s, b, d) ==> d in t.buffers)
  }

  /** Not an empty unused buffer of the same group. */
  predicate Spared(s: State, b: nat, d: nat)
    requires b in s.buffers && d in s.buffers
  {
    s.buffers[d].used || s.buffers[d].group != s.buffers[b].group || s.buffers[d].size > 0
  }

  lemma OnlyReleasedFree(s: State, b: nat)
    requires b in s.buffers && s.buffers[b].group in s.groups
    ensures OnlyReleased(s, b, Free(s, b))
  {
  }

  lemma SettleInv(u: State, i: nat)
    requires Books(u) && i in u.groups && u.groups[i].orphan && u.groups[i].usage == 0 && Settles(u.groups[i])
    requires forall h {:trigger u.groups[h]} :: h in u.groups && h != i && u.groups[h].orphan ==> u.groups[h].count > 0 || u.groups[h].lost > 0
    ensures var t := Settle(u, i); var g := u.groups[i];
            && Inv(t) && t.groups - {i} == u.groups - {i} && t.made == u.made && t.peak == u.peak
            && Internal(t.groups) <= Internal(u.groups)
            && (i in t.groups <==> g.count > 0)
            && (i in t.groups ==> t.groups[i].orphan && t.groups[i].misc == g.misc && t.groups[i].unusedList == [])
            && (g.unusedList == [] && i in t.groups ==> t == u)
  {
    hide GroupOk, Home, Internal, IdsOk, Sizes, Without;
    UsageNat(u, i);
    var g := u.groups[i];
    if g.unusedList == [] {
      if g.usedList == [] { DestroyBooks(u, i); }
    } else {
      WaitingSelf(u, i);
      FreeHead(u, i, g.unusedList);
      FreeBooks(u, g.unusedList[0]);
      FreeShape(u, g.unusedList[0]);
      UsageNat(Free(u, g.unusedList[0]), i);
      CountsOfLists(u, i);
    }
  }

  lemma CountsOfLists(s: State, i: nat)
    requires Books(s) && i in s.groups
    ensures s.groups[i].count == |s.groups[i].usedList| + |s.groups[i].unusedList|
  {
    assert GroupOk(s.groups[i], i, s.buffers);
  }

  lemma OnlyReleasedSettle(s: State, b: nat, u: State, i: nat)
    requires Books(s) && b in s.buffers && i == s.buffers[b].group && i in s.groups && u == Free(s, b)
    requires Books(u) && i in u.groups && u.groups[i].usage == 0
    ensures OnlyReleased(s, b, Settle(u, i))
  {
    hide GroupOk, Home, Internal, IdsOk, Sizes, Without;
    OnlyReleasedFree(s, b);
    var g := u.groups[i];
    if g.unusedList != [] {
      WaitingSelf(u, i);
      WaitingBuffer(u, i, g.unusedList);
      UsageCovers(u, i, g.unusedList[0]);
    }
  }

  lemma FreeShape(s: State, b: nat)
    requires b in s.buffers && s.buffers[b].group in s.groups
    ensures var t := Free(s, b); var i := s.buffers[b].group;
            && t.buffers == s.buffers - {b} && t.groups - {i} == s.groups - {i} && i in t.groups && t.made == s.made
            && t.groups.Keys == s.groups.Keys
            && t.groups[i].orphan == s.groups[i].orphan && t.groups[i].misc == s.groups[i].misc
            && t.groups[i].count == s.groups[i].count - 1 && t.groups[i].usage == s.groups[i].usage - Given(s.groups[i], s.buffers[b].size)
            && (s.buffers[b].used ==> t.groups[i].unusedList == s.groups[i].unusedList)
  {
  }

  lemma DecRefInv(s: State, b: nat)
    requires Inv(s) && b in s.buffers && s.buffers[b].group in s.groups && !Breaks(s, RefDec(b))
    ensures Inv(DecRef(s, b))
  {
    hide GroupOk, Home, Internal, IdsOk, Reuse, Release;
    KnownBuffer(s, b);
    if s.buffers[b].refs > 1 {
      MarkBooks(s, b, s.buffers[b].(refs := s.buffers[b].refs - 1));
    } else if s.buffers[b].refs == 1 {
      if Reusable(s, b) {
        ReuseBooks(s, b);
      } else {
        FreeDropped(s, b);
        ReleaseInv(s, b);
      }
    }
  }

  /** A put destroys the buffer's group exactly as the last put to an orphan whose bytes have all come back. */
  lemma DestroysIff(s: State, b: nat)
    requires Inv(s) && Legal(s, RefDec(b))
    ensures var i := s.buffers[b].group;
            i !in Next(s, RefDec(b)).groups
            <==> s.buffers[b].refs == 1 && !Reusable(s, b) && Gone(s.groups[i], s.buffers[b].size)
  {
    hide GroupOk, Home, Internal, IdsOk, Release, Without;
    KnownBuffer(s, b);
    if s.buffers[b].refs == 1 && !Reusable(s, b) {
      FreeDropped(s, b);
      ReleaseInv(s, b);
    }
  }

  /** A live buffer's id leads to its own group; it is on one list of it, the used one exactly while referenced, and on no other. */
  lemma OneList(s: State, b: nat, i: nat)
    requires Inv(s) && b in s.buffers && i in s.groups
    ensures s.buffers[b].group in s.groups
    ensures b in s.groups[i].usedList <==> i == s.buffers[b].group && s.buffers[b].refs > 0
    ensures b in s.groups[i].unusedList <==> i == s.buffers[b].group && s.buffers[b].refs == 0
  {
    hide GroupOk, Home, Internal, IdsOk;
    KnownBuffer(s, b);
    WhoseBuffer(s, i, b);
  }

  // ----- runs

  ghost predicate LegalRun(s: State, cs: seq<Call>)
    decreases |cs|
  {
    cs == [] || (Legal(s, cs[0]) && LegalRun(Next(s, cs[0]), cs[1..]))
  }

  ghost function After(s: State, cs: seq<Call>): State
    requires LegalRun(s, cs)
    decreases |cs|
  {
    if cs == [] then s else After(Next(s, cs[0]), cs[1..])
  }

  lemma {:induction false} RunInv(s: State, cs: seq<Call>)
    requires Inv(s) && LegalRun(s, cs)
    ensures Inv(After(s, cs))
    decreases |cs|
  {
    hide Inv, Next, Legal;
    if cs != [] {
      NextInv(s, cs[0]);
      RunInv(Next(s, cs[0]), cs[1..]);
    }
  }

  /** In every state any calls can reach from the start the books are right. */
  lemma EveryRun(cs: seq<Call>)
    requires LegalRun(EMPTY, cs)
    ensures Inv(After(EMPTY, cs))
  {
    EmptyInv();
    RunInv(EMPTY, cs);
  }

  lemma EmptyInv()
    ensures Inv(EMPTY)
  {
  }

  // ----- what one call does to the buffers

  function Delta(c: Call, b: nat): int {
    if c == RefInc(b) then 1 else if c == RefDec(b) then -1 else 0
  }

  /** A buffer in use is kept by every call but the put of its last reference, and its count is exact. */
  lemma RefsStep(s: State, c: Call, b: nat)
    requires Inv(s) && Legal(s, c) && b in s.buffers && s.buffers[b].refs > 0
    ensures var t := Next(s, c); var n := s.buffers[b].refs + Delta(c, b);
            && (n > 0 ==> b in t.buffers && t.buffers[b].refs == n && t.buffers[b].group == s.buffers[b].group)
            && (n == 0 ==> (b in t.buffers <==> Reusable(s, b)) && (b in t.buffers ==> !t.buffers[b].used && t.buffers[b].refs == 0))
  {
    hide GroupOk, Home, Internal, IdsOk, PutGroup, ClearGroup, GetBuffer, IdGiven, Search;
    KnownBuffer(s, b);
    match c
    case GroupGet(_, _, _, _, _) =>
    case GroupPut(i) => PutGroupInv(s, i); WhoseBuffer(s, i, b);
    case GroupClear(i) => ClearGroupInv(s, i); WhoseBuffer(s, i, b);
    case LimitConfig(_, _, _) =>
    case Import(i, _, size, take, _) => FreshBuffer(s); CreateFacts(s, i, size, take);
    case Get(i, size, alloc) => GetInv(s, i, size, alloc);
    case RefInc(d) =>
    case RefDec(d) => DecRefFacts(s, d);
  }

  /** The last put reuses or frees, and leaves every buffer alone but an empty unused one of the same group. */
  lemma DecRefFacts(s: State, b: nat)
    requires Inv(s) && b in s.buffers && s.buffers[b].group in s.groups && !Breaks(s, RefDec(b))
    ensures var t := DecRef(s, b);
            && t.made == s.made
            && (forall d :: d in t.buffers && d != b ==> d in s.buffers && t.buffers[d] == s.buffers[d])
            && (forall d :: d in s.buffers && d != b && Spared(s, b, d) ==> d in t.buffers)
            && (s.buffers[b].refs > 1 ==> b in t.buffers && t.buffers[b] == s.buffers[b].(refs := s.buffers[b].refs - 1))
            && (s.buffers[b].refs == 1 ==> (b in t.buffers <==> Reusable(s, b)))
            && (s.buffers[b].refs == 1 && b in t.buffers ==> t.buffers[b] == s.buffers[b].(refs := 0, used := false))
            && (s.buffers[b].refs == 0 ==> t == s)
  {
    hide GroupOk, Home, Internal, IdsOk, Release, Inv;
    if s.buffers[b].refs == 1 && !Reusable(s, b) {
      FreeDropped(s, b);
      ReleaseInv(s, b);
    }
  }

  /** Buffers keep their group and their mark, and new ones get new numbers. */
  lemma StepBuffers(s: State, c: Call)
    requires Inv(s) && Legal(s, c)
    ensures var t := Next(s, c); t.made >= s.made && forall b :: b in t.buffers ==> Descends(s, c, t, b)
  {
    hide GroupOk, Home, Internal, IdsOk, PutGroup, ClearGroup, GetBuffer, IdGiven, Search;
    match c
    case GroupGet(_, _, _, _, _) =>
    case GroupPut(i) => PutGroupInv(s, i);
    case GroupClear(i) => ClearGroupInv(s, i);
    case LimitConfig(_, _, _) =>
    case Import(i, _, size, take, _) => CreateFacts(s, i, size, take); FreshBuffer(s);
    case Get(i, size, alloc) => GetInv(s, i, size, alloc); GetMade(s, i, size, alloc); GetMarks(s, i, size, alloc);
    case RefInc(b) =>
    case RefDec(b) => DecRefFacts(s, b);
  }

  ghost predicate Descends(s: State, c: Call, t: State, b: nat)
    requires b in t.buffers
  {
    || (b in s.buffers && t.buffers[b].group == s.buffers[b].group && (s.buffers[b].discard ==> t.buffers[b].discard))
    || (b >= s.made && b !in s.buffers && Acquires(c, t.buffers[b].group))
  }

  /** The calls that add a buffer to group `i`, or take one out of its unused list by size. */
  predicate Acquires(c: Call, i: nat) {
    (c.Get? || c.Import?) && c.id == i
  }

  lemma GetMade(s: State, i: nat, size: nat, alloc: bool)
    requires Inv(s) && i in s.groups && !s.groups[i].orphan
    ensures GetBuffer(s, i, size, alloc).0.made >= s.made
  {
    hide GroupOk, Home, Internal, IdsOk, Search;
    WaitingSelf(s, i);
    SearchInv(s, i, s.groups[i].unusedList, size);
  }

  lemma GetMarks(s: State, i: nat, size: nat, alloc: bool)
    requires Inv(s) && i in s.groups && !s.groups[i].orphan
    ensures var (t, r) := GetBuffer(s, i, size, alloc);
            r.Some? && r.value in s.buffers ==> r.value in t.buffers && t.buffers[r.value].group == s.buffers[r.value].group
                                                && !s.buffers[r.value].discard
  {
    hide GroupOk, Home, Internal, IdsOk, Search;
    WaitingSelf(s, i);
    SearchInv(s, i, s.groups[i].unusedList, size);
    var (u, f) := Found(s, i, size);
    FreshBuffer(s);
    if f.Some? { FitFacts(s, i, size, f.value); }
  }

  // ----- id 0 is given in a run

  /** No groups, and the counter at `g`. */
  function Counted(g: nat, wrapped: bool): State {
    EMPTY.(groupId := g, overflowed := wrapped)
  }

  /** A group comes and goes. */
  function Visit(id: nat): seq<Call> {
    [GroupGet(true, 0, false, false, id), GroupPut(id)]
  }

  lemma VisitRun(g: nat, wrapped: bool)
    requires g < LIMIT
    ensures var id := if !wrapped && g == 0 then 1 else g;
            && LegalRun(Counted(g, wrapped), Visit(id))
            && After(Counted(g, wrapped), Visit(id)) == Counted((id + 1) % LIMIT, wrapped || g == 0)
  {
    var id := if !wrapped && g == 0 then 1 else g;
    var s := Counted(g, wrapped);
    assert s.groups.Keys == {} && At(id, 0) == id;
    assert FreeAfter(s.groups.Keys, id, id, 0);
    var get, put := GroupGet(true, 0, false, false, id), GroupPut(id);
    assert Legal(s, get);
    var t := Next(s, get);
    assert t.groups == map[id := NewGroup(true, 0, false, false)];
    assert Legal(t, put);
    var u := Next(t, put);
    assert u.groups == map[];
    assert u == Counted((id + 1) % LIMIT, wrapped || g == 0);
    assert Visit(id)[0] == get && Visit(id)[1..] == [put] && [put][0] == put && [put][1..] == [];
    assert LegalRun(u, []) && After(u, []) == u;
    assert LegalRun(t, [put]) && After(t, [put]) == u;
  }

  lemma {:induction false} RunConcat(s: State, a: seq<Call>, b: seq<Call>)
    requires LegalRun(s, a) && LegalRun(After(s, a), b)
    ensures LegalRun(s, a + b) && After(s, a + b) == After(After(s, a), b)
    decreases |a|
  {
    hide Next, Legal;
    if a == [] {
      assert a + b == b;
    } else {
      assert (a + b)[1..] == a[1..] + b;
      RunConcat(Next(s, a[0]), a[1..], b);
    }
  }

  /** The counter reaches any value, the first time and after it has wrapped. */
  lemma {:induction false} CountTo(g: nat, wrapped: bool) returns (cs: seq<Call>)
    requires g <= LIMIT && (if wrapped then g >= 2 else g >= 1)
    ensures LegalRun(EMPTY, cs) && After(EMPTY, cs) == Counted(g % LIMIT, wrapped)
    decreases wrapped, g
  {
    hide LegalRun, After, Visit;
    if !wrapped && g == 1 {
      cs := [];
      NoCalls();
    } else if wrapped && g == 2 {
      cs := CountTo(LIMIT, false);
      VisitRun(0, false);
      RunConcat(EMPTY, cs, Visit(1));
      cs := cs + Visit(1);
    } else {
      cs := CountTo(g - 1, wrapped);
      VisitRun(g - 1, wrapped);
      RunConcat(EMPTY, cs, Visit(g - 1));
      cs := cs + Visit(g - 1);
    }
  }

  lemma NoCalls()
    ensures LegalRun(EMPTY, []) && After(EMPTY, []) == Counted(1, false)
  {
  }

  /** Groups that come and go twice around the counter end where id 0 is given. */
  lemma ZeroIdHappens() returns (cs: seq<Call>)
    ensures LegalRun(EMPTY, cs) && Legal(After(EMPTY, cs), GroupGet(true, 0, false, false, 0))
  {
    hide LegalRun, After;
    cs := CountTo(LIMIT, true);
    ZeroId(Counted(0, true));
  }
}
