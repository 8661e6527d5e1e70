/**
 The buffer service itself: one object whose methods update groups, buffers and
 totals in place.  Every API method is proved to make the step of its call.
 */
module BufferService {
  import opened Common
  import opened Buffers
  import opened BufferInv
  import opened BufferTheorems

  class Service {
    var groups: map<nat, Group>
    var buffers: map<nat, Buffer>
    var made: nat
    var groupId: nat
    var overflowed: bool
    var groupCount: int
    var total: nat
    var peak: nat

    function Now(): State
      reads this
    {
      State(groups, buffers, made, groupId, overflowed, groupCount, total, peak)
    }

    constructor ()
      ensures Now() == EMPTY && Inv(Now())
    {
      groups := map[];
      buffers := map[];
      made := 0;
      groupId := 1;
      overflowed := false;
      groupCount := 0;
      total := 0;
      peak := 0;
      new;
      EmptyInv();
    }

    method AddTotal(size: nat)
      modifies this`total, this`peak
      ensures Now() == IncTotal(old(Now()), size)
    {
      total := (total + size) % LIMIT;
      if total > peak {
        peak := total;
      }
    }

    /** Takes ids from the counter until one is free. */
    method NextFree() returns (id: nat)
      requires |groups| < LIMIT && groupId < LIMIT
      modifies this`groupId
      ensures FirstFree(groups.Keys, old(groupId), id) && groupId == (id + 1) % LIMIT
    {
      ghost var from := groupId;
      ghost var k: nat := 0;
      id := groupId;
      groupId := (groupId + 1) % LIMIT;
      while id in groups
        invariant k < LIMIT && id == At(from, k) && groupId == (id + 1) % LIMIT
        invariant forall j: nat :: j < k ==> At(from, j) in groups.Keys
        decreases LIMIT - k
      {
        Circle(groups.Keys, from, k + 1);
        NextAt(from, k);
        id := groupId;
        groupId := (groupId + 1) % LIMIT;
        k := k + 1;
      }
      assert FreeAfter(groups.Keys, from, id, k);
    }

    /** The counter until it wraps; then the next id no live group has. */
    method GetGroupId() returns (id: nat)
      requires Inv(Now()) && |groups| < LIMIT
      modifies this`groupId, this`overflowed, this`groupCount
      ensures IdGiven(old(Now()), id) && Now() == AfterId(old(Now()), id)
    {
      hide FirstFree, GroupOk, Home;
      id := 0;
      if !overflowed {
        if groupId != 0 {
          id := groupId;
          groupId := (groupId + 1) % LIMIT;
        } else {
          overflowed := true;
          groupId := 1;
        }
      }
      if overflowed {
        id := NextFree();
      }
      groupCount := groupCount + 1;
    }

    method GroupGet(internal: bool, kind: nat, forgets: bool, misc: bool) returns (id: nat)
      requires Inv(Now()) && |groups| < LIMIT
      modifies this
      ensures Legal(old(Now()), Call.GroupGet(internal, kind, forgets, misc, id))
      ensures Now() == Next(old(Now()), Call.GroupGet(internal, kind, forgets, misc, id)) && Inv(Now())
      ensures id in groups && id !in old(groups)
      ensures var g := groups[id];
              && g.internal == internal && g.kind == kind && g.forgets == forgets && g.misc == misc && !g.orphan
              && g.limitSize == 0 && g.limitCount == 0 && g.count == 0 && g.usage == 0 && g.usedList == [] && g.unusedList == []
    {
      hide Inv, IdGiven;
      ghost var s := Now();
      id := GetGroupId();
      groups := groups[id := NewGroup(internal, kind, forgets, misc)];
      FreshId(s, id);
      NextInv(s, Call.GroupGet(internal, kind, forgets, misc, id));
    }

    method DestroyGroup(i: nat)
      requires i in groups
      requires groups[i].countUsed == 0 && groups[i].countUnused == 0
      modifies this`groups, this`groupCount
      ensures Now() == Destroy(old(Now()), i)
    {
      groups := groups - {i};
      groupCount := groupCount - 1;
    }

    /** Puts a buffer nobody holds back on the unused list, or releases it. */
    method PutBuffer(i: nat, b: nat, reuse: bool)
      requires b in buffers && buffers[b].group == i && i in groups && buffers[b].refs == 0
      requires !reuse ==> Books(Free(Now(), b)) && ReleaseSettles(Now(), b)
      modifies this
      ensures Now() == if reuse then Reuse(old(Now()), b) else Release(old(Now()), b)
      decreases |buffers|, 0
    {
      hide Books, Without, Settle;
      ghost var s := Now();
      var g := groups[i];
      if reuse {
        if buffers[b].used {
          g := g.(usedList := Without(g.usedList, b));
          g := g.(countUsed := g.countUsed - 1);
          g := g.(unusedList := g.unusedList + [b]);
          g := g.(countUnused := g.countUnused + 1);
        } else {
          g := g.(unusedList := Without(g.unusedList, b));
        }
        groups := groups[i := g];
        buffers := buffers[b := buffers[b].(used := false)];
        return;
      }
      var v := buffers[b];
      var size := if g.internal || !g.forgets then v.size else 0;
      if v.used {
        g := g.(usedList := Without(g.usedList, b), countUsed := g.countUsed - 1);
      } else {
        g := g.(unusedList := Without(g.unusedList, b), countUnused := g.countUnused - 1);
      }
      g := g.(usage := g.usage - size, lost := g.lost + (v.size - size));
      g := g.(count := g.count - 1);
      groups := groups[i := g];
      if g.internal {
        total := (total - v.size) % LIMIT;
      }
      Smaller(buffers, b);
      buffers := buffers - {b};
      assert Now() == Free(s, b);
      if g.orphan && g.usage == 0 {
        PutGroupNow(i);
      }
    }

    /**
     Releases the unused buffers; the group goes too, or stays behind as an orphan.  On
     an orphan whose usage fell to zero each release puts the group once more.
     */
    method PutGroupNow(i: nat)
      requires Books(Now()) && i in groups
      requires groups[i].orphan ==> groups[i].usage == 0 && Settles(groups[i])
      requires !groups[i].orphan ==> Inv(Now())
      modifies this
      ensures Now() == if old(groups)[i].orphan then Settle(old(Now()), i) else PutGroup(old(Now()), i)
      decreases |buffers|, 1
    {
      hide GroupOk, Home, IdsOk, Internal, Without;
      ghost var s := Now();
      ghost var n := |buffers|;
      var l := groups[i].unusedList;
      if groups[i].orphan {
        SettleOrphan(i);
        return;
      }
      while l != []
        invariant Inv(Now()) && i in groups && !groups[i].orphan && l == groups[i].unusedList && |buffers| <= n
        invariant FreeAll(Now(), l) == FreeAll(s, s.groups[i].unusedList)
        decreases |l|
      {
        ghost var u := Now();
        WaitingSelf(u, i);
        WaitingBuffer(u, i, l);
        FreeHead(u, i, l);
        FreeBooks(u, l[0]);
        PutBuffer(i, l[0], false);
        Smaller(u.buffers, l[0]);
        l := l[1..];
      }
      if groups[i].usedList == [] {
        EmptyCounts(Now(), i);
        DestroyGroup(i);
      } else {
        groups := groups[i := groups[i].(orphan := true)];
      }
    }

    /** The same steps on an orphan without usage. */
    method SettleOrphan(i: nat)
      requires Books(Now()) && i in groups && groups[i].orphan && groups[i].usage == 0 && Settles(groups[i])
      modifies this
      ensures Now() == Settle(old(Now()), i)
      decreases |buffers|, 1, 0
    {
      hide GroupOk, Home, IdsOk, Internal, Without;
      ghost var s := Now();
      if groups[i].unusedList != [] {
        var b := groups[i].unusedList[0];
        WaitingSelf(s, i);
        WaitingBuffer(s, i, groups[i].unusedList);
        FreeHead(s, i, groups[i].unusedList);
        FreeBooks(s, b);
        FreeShape(s, b);
        PutBuffer(i, b, false);
      } else if groups[i].usedList == [] {
        EmptyCounts(s, i);
        DestroyGroup(i);
      }
    }

    method GroupPut(i: nat)
      requires Inv(Now()) && i in groups && !groups[i].orphan
      modifies this
      ensures Now() == Next(old(Now()), Call.GroupPut(i)) && Inv(Now())
    {
      hide GroupOk, Home, IdsOk, Internal, PutGroup;
      ghost var s := Now();
      PutGroupNow(i);
      NextInv(s, Call.GroupPut(i));
    }

    /** Marks what is in use, releases what is not. */
    method GroupClear(i: nat)
      requires Inv(Now()) && i in groups && !groups[i].orphan
      modifies this
      ensures Now() == Next(old(Now()), Call.GroupClear(i)) && Inv(Now())
    {
      hide GroupOk, Home, IdsOk, Internal, Without, Distinct;
      ghost var s := Now();
      DiscardAllInv(s, i, groups[i].usedList);
      MarkUsed(i);
      ghost var u := Now();
      var l := groups[i].unusedList;
      while l != []
        invariant Inv(Now()) && i in groups && !groups[i].orphan && l == groups[i].unusedList
        invariant FreeAll(Now(), l) == FreeAll(u, s.groups[i].unusedList)
        decreases |l|
      {
        ghost var v := Now();
        WaitingSelf(v, i);
        WaitingBuffer(v, i, l);
        FreeHead(v, i, l);
        FreeBooks(v, l[0]);
        PutBuffer(i, l[0], false);
        l := l[1..];
      }
      NextInv(s, Call.GroupClear(i));
    }

    method MarkUsed(i: nat)
      requires i in groups
      modifies this`buffers
      ensures Now() == DiscardAll(old(Now()), groups[i].usedList)
    {
      ghost var s := Now();
      var l := groups[i].usedList;
      while l != []
        invariant DiscardAll(Now(), l) == DiscardAll(s, s.groups[i].usedList) && groups == s.groups
        decreases |l|
      {
        if l[0] in buffers {
          buffers := buffers[l[0] := buffers[l[0]].(discard := true)];
        }
        l := l[1..];
      }
    }

    method LimitConfig(i: nat, limitSize: nat, limitCount: nat)
      requires Inv(Now()) && i in groups && !groups[i].orphan
      modifies this
      ensures Now() == Next(old(Now()), Call.LimitConfig(i, limitSize, limitCount)) && Inv(Now())
      ensures groups[i].limitSize == limitSize && groups[i].limitCount == limitCount
    {
      ghost var s := Now();
      var g := groups[i].(limitSize := limitSize);
      groups := groups[i := g.(limitCount := limitCount)];
      NextInv(s, Call.LimitConfig(i, limitSize, limitCount));
    }

    /** `mpp_buffer_create`: refused at a limit or when nothing can be allocated. */
    method CreateBuffer(i: nat, size: nat, take: bool, alloc: bool) returns (r: Option<nat>)
      requires i in groups
      modifies this
      ensures Now() == TryCreate(old(Now()), i, size, take, alloc)
      ensures r == if AtLimit(old(groups)[i], size) || !alloc then None else Some(old(made))
      ensures var g := old(groups)[i];
              r.Some? <==> alloc && (g.limitCount == 0 || g.count < g.limitCount) && (g.limitSize == 0 || size <= g.limitSize)
      ensures r.Some? ==> i in groups && r.value in buffers && Fills(buffers[r.value], i, size, take)
                          && (if take then groups[i].usedList == old(groups)[i].usedList + [r.value]
                              else groups[i].unusedList == old(groups)[i].unusedList + [r.value])
    {
      var g := groups[i];
      if g.limitCount != 0 && g.count >= g.limitCount { return None; }
      if g.limitSize != 0 && size > g.limitSize { return None; }
      if !alloc { return None; }
      r := AddBuffer(i, size, take);
    }

    /** The part behind the refusals. */
    method AddBuffer(i: nat, size: nat, take: bool) returns (r: Option<nat>)
      requires i in groups
      modifies this
      ensures Now() == Create(old(Now()), i, size, take) && r == Some(old(made))
    {
      ghost var s := Now();
      var b := made;
      made := made + 1;
      var v, g := Entered(groups[i], i, b, size, take);
      assert g == Create(s, i, size, take).groups[i];
      buffers := buffers[b := v];
      groups := groups[i := g];
      if g.internal {
        AddTotal(size);
      }
      r := Some(b);
    }

    /** The new buffer's record, and its group's with the buffer on the right list. */
    static method Entered(before: Group, i: nat, b: nat, size: nat, take: bool) returns (v: Buffer, g: Group)
      ensures v == Buffer(i, before.nextIndex, size, if take then 1 else 0, take, false)
      ensures var h := before.(nextIndex := before.nextIndex + 1, usage := before.usage + size, count := before.count + 1);
              g == if take then h.(usedList := before.usedList + [b], countUsed := before.countUsed + 1)
                   else h.(unusedList := before.unusedList + [b], countUnused := before.countUnused + 1)
    {
      g := before;
      v := Buffer(i, g.nextIndex, size, 0, false, false);
      g := g.(nextIndex := g.nextIndex + 1);
      if take {
        v := v.(refs := v.refs + 1);
        v := v.(used := true);
        g := g.(usedList := g.usedList + [b]);
        g := g.(countUsed := g.countUsed + 1);
      } else {
        g := g.(unusedList := g.unusedList + [b]);
        g := g.(countUnused := g.countUnused + 1);
      }
      g := g.(usage := g.usage + size);
      g := g.(count := g.count + 1);
    }

    method Import(i: nat, kind: nat, size: nat, take: bool, alloc: bool) returns (ok: bool, r: Option<nat>)
      requires Inv(Now()) && i in groups && !groups[i].orphan
      modifies this
      ensures Now() == Next(old(Now()), Call.Import(i, kind, size, take, alloc)) && Inv(Now())
      ensures ok <==> groups[i].kind == kind && !groups[i].internal && r.Some?
      ensures var g := old(groups)[i];
              ok <==> && g.kind == kind && !g.internal && alloc
                      && (g.limitCount == 0 || g.count < g.limitCount) && (g.limitSize == 0 || size <= g.limitSize)
      ensures ok ==> r.value in buffers && Fills(buffers[r.value], i, size, take)
    {
      hide Inv, AtLimit;
      ghost var s := Now();
      NextInv(s, Call.Import(i, kind, size, take, alloc));
      r := None;
      if groups[i].kind != kind || groups[i].internal { return false, None; }
      r := CreateBuffer(i, size, take, alloc);
      ok := r.Some?;
    }

    /** The unused list in order: the first buffer large enough is taken, smaller ones of internal groups go. */
    method GetUnused(i: nat, size: nat) returns (r: Option<nat>)
      requires Inv(Now()) && i in groups && !groups[i].orphan
      modifies this
      ensures (Now(), r) == Found(old(Now()), i, size)
    {
      hide GroupOk, Home, IdsOk, Internal, Without, Distinct;
      ghost var s := Now();
      var l := groups[i].unusedList;
      WaitingSelf(s, i);
      while l != []
        invariant Inv(Now()) && i in groups && !groups[i].orphan && Waiting(Now(), i, l)
        invariant Search(Now(), i, l, size) == Found(s, i, size)
        decreases |l|
      {
        ghost var u := Now();
        var b := l[0];
        WaitingBuffer(u, i, l);
        if buffers[b].size >= size {
          var v := buffers[b];
          v := v.(refs := v.refs + 1);
          buffers := buffers[b := v.(used := true)];
          var g := groups[i];
          g := g.(unusedList := Without(g.unusedList, b));
          g := g.(usedList := g.usedList + [b]);
          g := g.(countUsed := g.countUsed + 1);
          groups := groups[i := g.(countUnused := g.countUnused - 1)];
          assert Now() == Take(u, b);
          return Some(b);
        }
        FreeHead(u, i, l);
        FreeBooks(u, b);
        if groups[i].internal {
          PutBuffer(i, b, false);
        }
        l := l[1..];
      }
      return None;
    }

    /** `mpp_buffer_get_with_tag`: an unused buffer first, a new one for an internal group. */
    method Get(i: nat, size: nat, alloc: bool) returns (r: Option<nat>)
      requires Inv(Now()) && i in groups && !groups[i].orphan
      modifies this
      ensures Now() == Next(old(Now()), Call.Get(i, size, alloc)) && Inv(Now())
      ensures r == GetBuffer(old(Now()), i, size, alloc).1
      ensures r.Some? ==> r.value in buffers && buffers[r.value].group == i && buffers[r.value].size >= size
                          && buffers[r.value].refs == 1 && !buffers[r.value].discard
    {
      hide GroupOk, Home, IdsOk, Internal, Search, Create, AtLimit;
      ghost var s := Now();
      GetInv(s, i, size, alloc);
      if size == 0 {
        return None;
      }
      WaitingSelf(s, i);
      SearchInv(s, i, groups[i].unusedList, size);
      r := GetUnused(i, size);
      if r.None? && groups[i].internal {
        r := CreateBuffer(i, size, true, alloc);
      }
    }

    method RefInc(b: nat)
      requires Inv(Now()) && b in buffers
      modifies this
      ensures old(Legal(Now(), Call.RefInc(b)))
      ensures Now() == Next(old(Now()), Call.RefInc(b)) && Inv(Now())
    {
      hide GroupOk, Home, IdsOk, Internal;
      ghost var s := Now();
      KnownBuffer(s, b);
      NextInv(s, Call.RefInc(b));
      var v := buffers[b];
      v := v.(refs := v.refs + 1);
      if !v.used {
        v := v.(used := true);
        var g := groups[v.group];
        g := g.(unusedList := Without(g.unusedList, b));
        g := g.(usedList := g.usedList + [b]);
        g := g.(countUsed := g.countUsed + 1);
        groups := groups[v.group := g.(countUnused := g.countUnused - 1)];
      }
      buffers := buffers[b := v];
    }

    /**
     A count that is not positive is an error; the last put decides between reuse and
     release.  The program then reads the group's callback and gives back its lock, even
     where the put has destroyed the group: `stale` says so.
     */
    method RefDec(b: nat) returns (ok: bool, stale: bool)
      requires Inv(Now()) && b in buffers && !Breaks(Now(), Call.RefDec(b))
      modifies this
      ensures old(Legal(Now(), Call.RefDec(b)))
      ensures ok == (old(buffers)[b].refs > 0)
      ensures Now() == Next(old(Now()), Call.RefDec(b)) && Inv(Now())
      ensures stale <==> old(buffers[b].refs == 1 && !Reusable(Now(), b) && Gone(groups[buffers[b].group], buffers[b].size))
    {
      hide GroupOk, Home, IdsOk, Internal, Reuse, Release, Without, Gone;
      ghost var s := Now();
      KnownBuffer(s, b);
      NextInv(s, Call.RefDec(b));
      DestroysIff(s, b);
      stale := false;
      if buffers[b].refs == 0 { return false, false; }
      FreeDropped(s, b);
      FreeBooks(s, b);
      buffers := buffers[b := buffers[b].(refs := buffers[b].refs - 1)];
      if buffers[b].refs == 0 {
        var i := buffers[b].group;
        var reuse := !groups[i].misc && !buffers[b].discard;
        PutBuffer(i, b, reuse);
        stale := i !in groups;
      }
      ok := true;
    }
  }

  /** A new buffer of the group, held by the caller who takes it and by nobody else. */
  predicate Fills(v: Buffer, i: nat, size: nat, take: bool) {
    v.group == i && v.size == size && !v.discard && v.used == take && v.refs == if take then 1 else 0
  }

  lemma FreshId(s: State, id: nat)
    requires Inv(s) && IdGiven(s, id)
    ensures id !in s.groups
  {
    IdFresh(s, id);
  }

  lemma NextAt(from: nat, k: nat)
    ensures At(from, k + 1) == (At(from, k) + 1) % LIMIT
  {
  }

  lemma Smaller(bs: map<nat, Buffer>, b: nat)
    requires b in bs
    ensures |bs - {b}| == |bs| - 1
  {
    assert (bs - {b}).Keys == bs.Keys - {b};
    assert |bs| == |bs.Keys| && |bs - {b}| == |(bs - {b}).Keys|;
  }

  lemma EmptyCounts(s: State, i: nat)
    requires Books(s) && i in s.groups && s.groups[i].usedList == [] && s.groups[i].unusedList == []
    ensures s.groups[i].countUsed == 0 && s.groups[i].countUnused == 0
  {
    assert GroupOk(s.groups[i], i, s.buffers);
  }
}
