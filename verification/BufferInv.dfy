/**
 What every API call keeps: lists, counters, reference counts and totals agree.
 */
module BufferInv {
  import opened Common
  import opened Buffers

  /** The group's counters describe its lists, and the lists hold its own buffers. */
  ghost predicate GroupOk(g: Group, i: nat, bs: map<nat, Buffer>) {
    && ListOk(g.usedList, bs, i, true) && ListOk(g.unusedList, bs, i, false)
    && g.countUsed == |g.usedList| && g.countUnused == |g.unusedList| && g.count == |g.usedList| + |g.unusedList|
    && g.usage == Sizes(bs, g.usedList) + Sizes(bs, g.unusedList) + g.lost
    && (g.internal || !g.forgets ==> g.lost == 0)
  }

  ghost predicate ListOk(l: seq<nat>, bs: map<nat, Buffer>, i: nat, used: bool) {
    Distinct(l) && forall b <- l :: Listed(bs, b, i, used)
  }

  ghost predicate Listed(bs: map<nat, Buffer>, b: nat, i: nat, used: bool) {
    b in bs && bs[b].group == i && bs[b].used == used && BufferOk(bs[b])
  }

  /** Used exactly while referenced; a discarded buffer never waits for reuse. */
  ghost predicate BufferOk(v: Buffer) {
    (v.used <==> v.refs > 0) && (v.discard ==> v.used)
  }

  /** The buffer's group id leads to its own group, which has it on the right list. */
  ghost predicate Home(s: State, b: nat)
    requires b in s.buffers
  {
    && b < s.made
    && s.buffers[b].group in s.groups
    && b in (if s.buffers[b].used then s.groups[s.buffers[b].group].usedList else s.groups[s.buffers[b].group].unusedList)
  }

  /** Ids are 32 bits wide; before the first wrap all given ones are below the counter. */
  ghost predicate IdsOk(s: State) {
    && s.groupId < LIMIT
    && s.groupCount == |s.groups|
    && forall i {:trigger i in s.groups} :: i in s.groups ==>
         i < LIMIT && (!s.overflowed ==> i > 0 && (s.groupId == 0 || i < s.groupId))
  }

  /** An orphan still has a buffer, or bytes that were not given back. */
  ghost predicate OrphansHold(s: State) {
    forall i {:trigger s.groups[i]} :: i in s.groups && s.groups[i].orphan ==> s.groups[i].count > 0 || s.groups[i].lost > 0
  }

  ghost predicate Inv(s: State) {
    Books(s) && OrphansHold(s)
  }

  ghost predicate Books(s: State) {
    && IdsOk(s)
    && (forall i {:trigger s.groups[i]} :: i in s.groups ==> GroupOk(s.groups[i], i, s.buffers))
    && (forall b {:trigger s.buffers[b]} :: b in s.buffers ==> Home(s, b))
    && s.total == Internal(s.groups) % LIMIT
    && s.peak < LIMIT
  }

  // ----- the sum over the internal groups

  ghost function Internal(gs: map<nat, Group>): int {
    if gs == map[] then 0
    else
      var i :| i in gs;
      Share(gs[i]) + Internal(gs - {i})
  }

  function Share(g: Group): int {
    if g.internal then g.usage else 0
  }

  lemma {:induction false} InternalTakeOut(gs: map<nat, Group>, i: nat)
    requires i in gs
    ensures Internal(gs) == Share(gs[i]) + Internal(gs - {i})
    decreases |gs|
  {
    var j :| j in gs && Internal(gs) == Share(gs[j]) + Internal(gs - {j});
    if j != i {
      InternalTakeOut(gs - {j}, i);
      InternalTakeOut(gs - {i}, j);
      assert gs - {j} - {i} == gs - {i} - {j};
    }
  }

  lemma InternalUpdate(gs: map<nat, Group>, i: nat, g: Group)
    ensures Internal(gs[i := g]) == (if i in gs then Internal(gs) - Share(gs[i]) else Internal(gs)) + Share(g)
  {
    InternalTakeOut(gs[i := g], i);
    if i in gs {
      InternalTakeOut(gs, i);
      assert gs[i := g] - {i} == gs - {i};
    } else {
      assert gs[i := g] - {i} == gs;
    }
  }

  // ----- one group and one buffer change

  /** Everything but group `i` and buffer `b` is as before, and they are in order. */
  ghost predicate Touches(s: State, t: State, i: nat, b: nat) {
    && i in s.groups && i in t.groups && t.groups == s.groups[i := t.groups[i]]
    && (b in s.buffers ==> s.buffers[b].group == i)
    && s.buffers - {b} == t.buffers - {b}
    && t.made >= s.made && t.overflowed == s.overflowed && t.groupId == s.groupId && t.groupCount == s.groupCount
  }

  ghost predicate SameOthers(g: Group, h: Group, b: nat) {
    forall c {:trigger c in g.usedList} {:trigger c in h.usedList} {:trigger c in g.unusedList} {:trigger c in h.unusedList} ::
      c != b ==> (c in g.usedList <==> c in h.usedList) && (c in g.unusedList <==> c in h.unusedList)
  }

  lemma OtherGroup(s: State, t: State, i: nat, b: nat, h: nat)
    requires Books(s) && Touches(s, t, i, b) && h in s.groups && h != i
    ensures GroupOk(s.groups[h], h, t.buffers)
  {
    var g := s.groups[h];
    assert GroupOk(g, h, s.buffers);
    forall c | c in g.usedList || c in g.unusedList ensures c in s.buffers && c in t.buffers && s.buffers[c] == t.buffers[c] {
      assert c in s.buffers && s.buffers[c].group == h;
      assert c in s.buffers - {b};
      assert (s.buffers - {b})[c] == (t.buffers - {b})[c];
    }
    SizesFrame(s.buffers, t.buffers, g.usedList);
    SizesFrame(s.buffers, t.buffers, g.unusedList);
  }

  lemma OtherBuffer(s: State, t: State, i: nat, b: nat, c: nat)
    requires Books(s) && Touches(s, t, i, b) && SameOthers(s.groups[i], t.groups[i], b)
    requires c in t.buffers && c != b
    ensures Home(t, c)
  {
    assert c in t.buffers - {b};
    assert c in s.buffers && s.buffers[c] == t.buffers[c] by {
      assert (s.buffers - {b})[c] == (t.buffers - {b})[c];
    }
    assert Home(s, c);
  }

  lemma ModAdd(x: int, d: int)
    ensures (x % LIMIT + d) % LIMIT == (x + d) % LIMIT
  {
  }

  lemma Update(s: State, t: State, i: nat, b: nat)
    requires Books(s) && Touches(s, t, i, b) && SameOthers(s.groups[i], t.groups[i], b)
    requires GroupOk(t.groups[i], i, t.buffers)
    requires b in t.buffers ==> Home(t, b)
    requires t.total == (s.total + Share(t.groups[i]) - Share(s.groups[i])) % LIMIT && t.peak < LIMIT
    ensures Books(t) && Internal(t.groups) == Internal(s.groups) + Share(t.groups[i]) - Share(s.groups[i])
    ensures OrphansHold(s) && (t.groups[i].orphan ==> t.groups[i].count > 0 || t.groups[i].lost > 0) ==> OrphansHold(t)
  {
    hide GroupOk, Home;
    forall h {:trigger t.groups[h]} | h in t.groups ensures GroupOk(t.groups[h], h, t.buffers) {
      if h != i {
        OtherGroup(s, t, i, b, h);
        assert t.groups[h] == s.groups[h];
      }
    }
    forall c {:trigger t.buffers[c]} | c in t.buffers ensures Home(t, c) {
      if c != b { OtherBuffer(s, t, i, b, c); }
    }
    InternalUpdate(s.groups, i, t.groups[i]);
    ModAdd(Internal(s.groups), Share(t.groups[i]) - Share(s.groups[i]));
    assert |t.groups| == |s.groups| by { assert t.groups.Keys == s.groups.Keys; }
    IdsFrame(s, t);
  }

  lemma IdsFrame(s: State, t: State)
    requires IdsOk(s) && t.groups.Keys == s.groups.Keys && |t.groups| == |s.groups|
    requires t.overflowed == s.overflowed && t.groupId == s.groupId && t.groupCount == s.groupCount
    ensures IdsOk(t)
  {
  }

  // ----- one list, in a map where only `b` changed, came or is gone

  lemma Same(bs: map<nat, Buffer>, cs: map<nat, Buffer>, b: nat, c: nat)
    requires bs - {b} == cs - {b} && c != b && c in bs
    ensures c in cs && cs[c] == bs[c]
  {
    assert c in bs - {b};
    assert (bs - {b})[c] == (cs - {b})[c];
  }

  /** `b` left the list. */
  lemma ListLeft(l: seq<nat>, bs: map<nat, Buffer>, cs: map<nat, Buffer>, i: nat, used: bool, b: nat)
    requires ListOk(l, bs, i, used) && b in l && b in bs && bs - {b} == cs - {b}
    ensures var w := Without(l, b);
            && ListOk(w, cs, i, used) && |w| == |l| - 1 && Sizes(cs, w) == Sizes(bs, l) - bs[b].size
            && forall x :: x in w <==> x in l && x != b
  {
    hide Without, Sizes, Distinct;
    WithoutFacts(l, b);
    SizesWithout(bs, l, b);
    var w := Without(l, b);
    forall c <- w ensures c in bs && c in cs && cs[c] == bs[c] {
      assert Listed(bs, c, i, used);
      Same(bs, cs, b, c);
    }
    SizesFrame(bs, cs, w);
  }

  /** `b` is not in the list. */
  lemma ListKept(l: seq<nat>, bs: map<nat, Buffer>, cs: map<nat, Buffer>, i: nat, used: bool, b: nat)
    requires ListOk(l, bs, i, used) && b !in l && bs - {b} == cs - {b}
    ensures ListOk(l, cs, i, used) && Sizes(cs, l) == Sizes(bs, l)
  {
    hide Sizes, Distinct;
    forall c <- l ensures c in bs && c in cs && cs[c] == bs[c] {
      assert Listed(bs, c, i, used);
      Same(bs, cs, b, c);
    }
    SizesFrame(bs, cs, l);
  }

  /** `b` joined the list at its end. */
  lemma ListJoined(l: seq<nat>, bs: map<nat, Buffer>, cs: map<nat, Buffer>, i: nat, used: bool, b: nat)
    requires ListOk(l, bs, i, used) && b !in l && bs - {b} == cs - {b} && Listed(cs, b, i, used)
    ensures ListOk(l + [b], cs, i, used) && Sizes(cs, l + [b]) == Sizes(bs, l) + cs[b].size
  {
    hide Sizes, Distinct;
    ListKept(l, bs, cs, i, used, b);
    DistinctJoined(l, b);
    SizesAppend(cs, l, b);
  }

  lemma OneListOnly(l: seq<nat>, bs: map<nat, Buffer>, i: nat, used: bool, b: nat)
    requires ListOk(l, bs, i, used) && (b in bs ==> bs[b].used != used)
    ensures b !in l
  {
    assert b in l ==> Listed(bs, b, i, used);
  }

  // ----- the single moves

  lemma FreeGroup(s: State, b: nat)
    requires Books(s) && b in s.buffers
    ensures s.buffers[b].group in s.groups
    ensures var t := Free(s, b); var i := s.buffers[b].group;
            && GroupOk(t.groups[i], i, t.buffers) && SameOthers(s.groups[i], t.groups[i], b)
            && Touches(s, t, i, b)
  {
    hide Sizes, Without, ListOk, Internal;
    assert Home(s, b);
    var i := s.buffers[b].group;
    var g, bs: map<nat, Buffer>, cs: map<nat, Buffer> := s.groups[i], s.buffers, Free(s, b).buffers;
    assert GroupOk(g, i, bs);
    assert bs - {b} == cs - {b};
    if bs[b].used {
      OneListOnly(g.unusedList, bs, i, false, b);
      ListLeft(g.usedList, bs, cs, i, true, b);
      ListKept(g.unusedList, bs, cs, i, false, b);
    } else {
      OneListOnly(g.usedList, bs, i, true, b);
      ListLeft(g.unusedList, bs, cs, i, false, b);
      ListKept(g.usedList, bs, cs, i, true, b);
    }
  }

  lemma FreeBooks(s: State, b: nat)
    requires Books(s) && b in s.buffers
    ensures s.buffers[b].group in s.groups
    ensures var t := Free(s, b); var i := s.buffers[b].group;
            && Books(t) && t.groups[i].count == s.groups[i].count - 1 && t.peak == s.peak
            && Internal(t.groups) == Internal(s.groups) - (if s.groups[i].internal then s.buffers[b].size else 0)
            && (OrphansHold(s) && (s.groups[i].orphan ==> t.groups[i].count > 0 || t.groups[i].lost > 0) ==> OrphansHold(t))
  {
    hide GroupOk, SameOthers;
    FreeGroup(s, b);
    ModAdd(Internal(s.groups), 0);
    Update(s, Free(s, b), s.buffers[b].group, b);
  }

  lemma TakeGroup(s: State, b: nat)
    requires Books(s) && b in s.buffers && !s.buffers[b].used
    ensures s.buffers[b].group in s.groups
    ensures var t := Take(s, b); var i := s.buffers[b].group;
            && GroupOk(t.groups[i], i, t.buffers) && SameOthers(s.groups[i], t.groups[i], b)
            && Touches(s, t, i, b) && Home(t, b)
  {
    hide Sizes, Without, ListOk, Internal;
    assert Home(s, b);
    var i := s.buffers[b].group;
    var g, bs, t := s.groups[i], s.buffers, Take(s, b);
    assert GroupOk(g, i, bs);
    KnownBuffer(s, b);
    assert bs - {b} == t.buffers - {b};
    OneListOnly(g.usedList, bs, i, true, b);
    ListLeft(g.unusedList, bs, t.buffers, i, false, b);
    ListJoined(g.usedList, bs, t.buffers, i, true, b);
  }

  lemma KnownBuffer(s: State, b: nat)
    requires Books(s) && b in s.buffers
    ensures s.buffers[b].group in s.groups && BufferOk(s.buffers[b])
  {
    assert Home(s, b);
    var i := s.buffers[b].group;
    assert GroupOk(s.groups[i], i, s.buffers);
    assert Listed(s.buffers, b, i, s.buffers[b].used);
  }

  lemma TakeBooks(s: State, b: nat)
    requires Books(s) && b in s.buffers && !s.buffers[b].used
    ensures s.buffers[b].group in s.groups
    ensures Books(Take(s, b)) && Internal(Take(s, b).groups) == Internal(s.groups)
    ensures OrphansHold(s) ==> OrphansHold(Take(s, b))
  {
    hide GroupOk, SameOthers, Home;
    TakeGroup(s, b);
    ModAdd(Internal(s.groups), 0);
    Update(s, Take(s, b), s.buffers[b].group, b);
  }

  /** The state between the decrement and the reuse or release. */
  function Dropped(s: State, b: nat): State
    requires b in s.buffers && s.buffers[b].refs > 0
  {
    s.(buffers := s.buffers[b := s.buffers[b].(refs := s.buffers[b].refs - 1)])
  }

  lemma ReuseGroup(s: State, b: nat)
    requires Books(s) && b in s.buffers && s.buffers[b].refs == 1 && !s.buffers[b].discard
    ensures s.buffers[b].group in s.groups
    ensures var t := Reuse(Dropped(s, b), b); var i := s.buffers[b].group;
            && GroupOk(t.groups[i], i, t.buffers) && SameOthers(s.groups[i], t.groups[i], b)
            && Touches(s, t, i, b) && Home(t, b)
  {
    hide Sizes, Without, ListOk, Internal;
    assert Home(s, b);
    KnownBuffer(s, b);
    var i := s.buffers[b].group;
    var g, bs, t := s.groups[i], s.buffers, Reuse(Dropped(s, b), b);
    assert GroupOk(g, i, bs);
    assert bs - {b} == t.buffers - {b};
    OneListOnly(g.unusedList, bs, i, false, b);
    ListLeft(g.usedList, bs, t.buffers, i, true, b);
    ListJoined(g.unusedList, bs, t.buffers, i, false, b);
  }

  lemma ReuseBooks(s: State, b: nat)
    requires Books(s) && b in s.buffers && s.buffers[b].refs == 1 && !s.buffers[b].discard
    ensures s.buffers[b].group in s.groups
    ensures var t := Reuse(Dropped(s, b), b);
            Books(t) && Internal(t.groups) == Internal(s.groups) && (OrphansHold(s) ==> OrphansHold(t))
  {
    hide GroupOk, SameOthers, Home;
    ReuseGroup(s, b);
    ModAdd(Internal(s.groups), 0);
    Update(s, Reuse(Dropped(s, b), b), s.buffers[b].group, b);
  }

  /** A buffer's own fields change, and it stays on its list. */
  lemma MarkBooks(s: State, b: nat, v: Buffer)
    requires Books(s) && b in s.buffers && BufferOk(v)
    requires v.group == s.buffers[b].group && v.size == s.buffers[b].size && v.used == s.buffers[b].used
    ensures var t := s.(buffers := s.buffers[b := v]); Books(t) && (OrphansHold(s) ==> OrphansHold(t))
  {
    hide Sizes, ListOk, Internal;
    assert Home(s, b);
    var i := v.group;
    var g := s.groups[i];
    var t := s.(buffers := s.buffers[b := v]);
    assert GroupOk(g, i, s.buffers);
    assert s.buffers - {b} == t.buffers - {b};
    ListMarked(g.usedList, s.buffers, i, true, b, v);
    ListMarked(g.unusedList, s.buffers, i, false, b, v);
    ModAdd(Internal(s.groups), 0);
    assert t.groups == s.groups[i := g];
    assert GroupOk(t.groups[i], i, t.buffers);
    assert Home(t, b);
    Update(s, t, i, b);
  }

  lemma ListMarked(l: seq<nat>, bs: map<nat, Buffer>, i: nat, used: bool, b: nat, v: Buffer)
    requires ListOk(l, bs, i, used) && b in bs && BufferOk(v)
    requires v.group == bs[b].group && v.size == bs[b].size && v.used == bs[b].used
    ensures ListOk(l, bs[b := v], i, used) && Sizes(bs[b := v], l) == Sizes(bs, l)
  {
    hide Sizes, Distinct;
    SizesFrame(bs, bs[b := v], l);
  }

  /** Serial numbers are not used twice. */
  lemma FreshBuffer(s: State)
    requires Books(s)
    ensures s.made !in s.buffers
  {
    forall c | c in s.buffers ensures c < s.made { assert Home(s, c); }
  }

  lemma CreateHome(s: State, i: nat, size: nat, take: bool)
    requires i in s.groups
    ensures Home(Create(s, i, size, take), s.made)
  {
  }

  lemma CreateLists(s: State, i: nat, size: nat, take: bool)
    requires Books(s) && i in s.groups
    ensures var t := Create(s, i, size, take); var b := s.made; var g := s.groups[i];
            && b !in s.buffers && b !in g.usedList && b !in g.unusedList && s.buffers - {b} == t.buffers - {b}
            && ListOk(if take then g.usedList + [b] else g.usedList, t.buffers, i, true)
            && ListOk(if take then g.unusedList else g.unusedList + [b], t.buffers, i, false)
            && Sizes(t.buffers, if take then g.usedList + [b] else g.usedList)
               == Sizes(s.buffers, g.usedList) + (if take then size else 0)
            && Sizes(t.buffers, if take then g.unusedList else g.unusedList + [b])
               == Sizes(s.buffers, g.unusedList) + (if take then 0 else size)
  {
    hide Sizes, ListOk, Internal, Home;
    var b := s.made;
    FreshBuffer(s);
    var g, bs, t := s.groups[i], s.buffers, Create(s, i, size, take);
    assert GroupOk(g, i, bs);
    assert bs - {b} == t.buffers - {b};
    OneListOnly(g.usedList, bs, i, true, b);
    OneListOnly(g.unusedList, bs, i, false, b);
    assert Listed(t.buffers, b, i, take);
    if take {
      ListJoined(g.usedList, bs, t.buffers, i, true, b);
      ListKept(g.unusedList, bs, t.buffers, i, false, b);
    } else {
      ListJoined(g.unusedList, bs, t.buffers, i, false, b);
      ListKept(g.usedList, bs, t.buffers, i, true, b);
    }
  }

  lemma CreateShape(s: State, i: nat, size: nat, take: bool)
    requires i in s.groups
    ensures var t := Create(s, i, size, take); var g := s.groups[i]; var h := t.groups[i]; var b := s.made;
            && h.usedList == (if take then g.usedList + [b] else g.usedList)
            && h.unusedList == (if take then g.unusedList else g.unusedList + [b])
            && h.countUsed == g.countUsed + (if take then 1 else 0) && h.countUnused == g.countUnused + (if take then 0 else 1)
            && h.count == g.count + 1 && h.usage == g.usage + size && h.lost == g.lost
            && h.internal == g.internal && h.forgets == g.forgets && h.orphan == g.orphan
  {
  }

  lemma CreateTouches(s: State, i: nat, size: nat, take: bool)
    requires i in s.groups && s.made !in s.buffers
    ensures Touches(s, Create(s, i, size, take), i, s.made)
    ensures SameOthers(s.groups[i], Create(s, i, size, take).groups[i], s.made)
  {
    var t := Create(s, i, size, take);
    CreateShape(s, i, size, take);
    assert s.buffers - {s.made} == t.buffers - {s.made};
    assert t.groups == s.groups[i := t.groups[i]];
  }

  lemma CreateGroup(s: State, i: nat, size: nat, take: bool)
    requires Books(s) && i in s.groups
    ensures var t := Create(s, i, size, take); var b := s.made;
            && b !in s.buffers && GroupOk(t.groups[i], i, t.buffers) && SameOthers(s.groups[i], t.groups[i], b)
            && Touches(s, t, i, b) && Home(t, b) && t.groups[i].count > 0
  {
    hide Sizes, ListOk, Internal, Home, Create, Touches, SameOthers;
    CreateHome(s, i, size, take);
    CreateLists(s, i, size, take);
    CreateShape(s, i, size, take);
    CreateTouches(s, i, size, take);
    assert GroupOk(s.groups[i], i, s.buffers);
  }

  lemma CreateBooks(s: State, i: nat, size: nat, take: bool)
    requires Books(s) && i in s.groups
    ensures var t := Create(s, i, size, take);
            && Books(t) && s.made !in s.buffers && (OrphansHold(s) ==> OrphansHold(t))
            && Internal(t.groups) == Internal(s.groups) + (if s.groups[i].internal then size else 0)
            && t.peak == (if s.groups[i].internal && t.total > s.peak then t.total else s.peak)
  {
    hide GroupOk, SameOthers, Home;
    CreateGroup(s, i, size, take);
    ModAdd(Internal(s.groups), 0);
    Update(s, Create(s, i, size, take), i, s.made);
  }

  // ----- groups come, change their flags and go

  lemma FlagBooks(s: State, i: nat, g: Group)
    requires Books(s) && i in s.groups
    requires g == s.groups[i].(orphan := g.orphan, limitSize := g.limitSize, limitCount := g.limitCount)
    ensures var t := s.(groups := s.groups[i := g]);
            && Books(t) && Internal(t.groups) == Internal(s.groups)
            && (OrphansHold(s) && (g.orphan ==> g.count > 0 || g.lost > 0) ==> OrphansHold(t))
  {
    hide Sizes, Distinct, Internal;
    var t := s.(groups := s.groups[i := g]);
    assert GroupOk(s.groups[i], i, s.buffers);
    assert GroupOk(g, i, s.buffers);
    ModAdd(Internal(s.groups), 0);
    var b := s.made;
    FreshBuffer(s);
    Update(s, t, i, b);
  }

  lemma DestroyHome(s: State, i: nat, c: nat)
    requires Books(s) && i in s.groups && s.groups[i].usedList == [] && s.groups[i].unusedList == []
    requires c in s.buffers
    ensures Home(Destroy(s, i), c)
  {
    hide GroupOk, Internal, IdsOk;
    assert Home(s, c);
  }

  lemma DestroyIds(s: State, i: nat)
    requires IdsOk(s) && i in s.groups
    ensures IdsOk(Destroy(s, i))
  {
    var t := Destroy(s, i);
    assert t.groups.Keys == s.groups.Keys - {i};
    assert |t.groups| == |t.groups.Keys|;
    assert |s.groups| == |s.groups.Keys|;
  }

  lemma DestroyBooks(s: State, i: nat)
    requires Books(s) && i in s.groups && s.groups[i].usedList == [] && s.groups[i].unusedList == []
    ensures var t := Destroy(s, i);
            && Books(t) && Internal(t.groups) == Internal(s.groups) && (OrphansHold(s) ==> OrphansHold(t))
            && s.groups[i].countUsed == 0 && s.groups[i].countUnused == 0 && s.groups[i].usage == s.groups[i].lost
  {
    hide Distinct, Internal, IdsOk, Home;
    var t := Destroy(s, i);
    assert GroupOk(s.groups[i], i, s.buffers);
    InternalTakeOut(s.groups, i);
    DestroyIds(s, i);
    forall h {:trigger t.groups[h]} | h in t.groups ensures GroupOk(t.groups[h], h, t.buffers) {
      assert t.groups[h] == s.groups[h];
    }
    forall c {:trigger t.buffers[c]} | c in t.buffers ensures Home(t, c) {
      DestroyHome(s, i, c);
    }
  }

  lemma {:induction false} SizesMember(bs: map<nat, Buffer>, l: seq<nat>, b: nat)
    requires b in l && b in bs
    ensures Sizes(bs, l) >= bs[b].size
  {
    if l[0] != b { SizesMember(bs, l[1..], b); }
  }

  lemma UsageNat(s: State, i: nat)
    requires Books(s) && i in s.groups
    ensures s.groups[i].usage >= s.groups[i].lost
    ensures s.groups[i].count >= 0 && (s.groups[i].count == 0 <==> s.groups[i].usedList == [] && s.groups[i].unusedList == [])
    ensures s.groups[i].count == 0 ==> s.groups[i].usage == s.groups[i].lost
  {
    assert GroupOk(s.groups[i], i, s.buffers);
  }

  /** A group's usage covers each of its buffers, so an empty usage leaves only empty buffers. */
  lemma UsageCovers(s: State, i: nat, b: nat)
    requires Books(s) && i in s.groups && b in s.buffers && s.buffers[b].group == i
    ensures s.groups[i].usage >= s.buffers[b].size + s.groups[i].lost
  {
    hide Sizes, Distinct;
    assert Home(s, b);
    var g := s.groups[i];
    assert GroupOk(g, i, s.buffers);
    SizesMember(s.buffers, if s.buffers[b].used then g.usedList else g.unusedList, b);
  }

  // ----- lists freed and searched

  ghost predicate Waiting(s: State, i: nat, l: seq<nat>)
  {
    i in s.groups && Distinct(l) && forall b <- l :: b in s.groups[i].unusedList
  }

  lemma WaitingBuffer(s: State, i: nat, l: seq<nat>)
    requires Books(s) && Waiting(s, i, l) && l != []
    ensures var b := l[0]; b in s.buffers && s.buffers[b].group == i && !s.buffers[b].used && BufferOk(s.buffers[b])
    ensures Waiting(s, i, l[1..]) && l[0] !in l[1..]
  {
    assert GroupOk(s.groups[i], i, s.buffers);
    assert Listed(s.buffers, l[0], i, false);
  }

  /** What is left of a list after its first buffer was freed. */
  lemma FreeHead(s: State, i: nat, l: seq<nat>)
    requires Books(s) && Waiting(s, i, l) && l != []
    ensures l[0] in s.buffers && s.buffers[l[0]].group == i
    ensures Waiting(Free(s, l[0]), i, l[1..])
    ensures s.groups[i].unusedList == l ==> Free(s, l[0]).groups[i].unusedList == l[1..]
  {
    WaitingBuffer(s, i, l);
    assert GroupOk(s.groups[i], i, s.buffers);
    WithoutFacts(s.groups[i].unusedList, l[0]);
  }

  /** Releasing the whole unused list leaves the used one, and everything else, alone. */
  lemma {:induction false} FreeAllInv(s: State, i: nat, l: seq<nat>)
    requires Inv(s) && i in s.groups && !s.groups[i].orphan && l == s.groups[i].unusedList
    ensures var t := FreeAll(s, l);
            && Inv(t) && i in t.groups && t.groups[i].unusedList == []
            && t.groups[i].usedList == s.groups[i].usedList && !t.groups[i].orphan
            && t.groups - {i} == s.groups - {i} && t.groups.Keys == s.groups.Keys
            && t.buffers == s.buffers - (set b <- l) && t.peak == s.peak && t.made == s.made
            && Internal(t.groups) <= Internal(s.groups)
    decreases |l|
  {
    hide GroupOk, Home, Internal, Without, Distinct, Sizes, IdsOk;
    if l != [] {
      WaitingSelf(s, i);
      FreeHead(s, i, l);
      FreeBooks(s, l[0]);
      var u := Free(s, l[0]);
      FreeAllInv(u, i, l[1..]);
      RemoveHead(s.buffers, l);
      assert u.groups - {i} == s.groups - {i};
    } else {
      assert s.buffers - {} == s.buffers;
    }
  }

  lemma RemoveHead(bs: map<nat, Buffer>, l: seq<nat>)
    requires l != []
    ensures bs - {l[0]} - (set b <- l[1..]) == bs - (set b <- l)
  {
    assert l == [l[0]] + l[1..];
    assert (set b <- l) == {l[0]} + (set b <- l[1..]);
  }

  lemma WaitingSelf(s: State, i: nat)
    requires Books(s) && i in s.groups
    ensures Waiting(s, i, s.groups[i].unusedList)
  {
    assert GroupOk(s.groups[i], i, s.buffers);
  }

  /** The used buffers are marked, all others and the groups are not touched. */
  lemma {:induction false} DiscardAllInv(s: State, i: nat, l: seq<nat>)
    requires Inv(s) && i in s.groups && forall b <- l :: b in s.groups[i].usedList
    ensures var t := DiscardAll(s, l);
            && Inv(t) && t.groups == s.groups && t.buffers.Keys == s.buffers.Keys && t.peak == s.peak && t.made == s.made
            && (forall b :: b in s.buffers ==>
                 t.buffers[b] == if b in l then s.buffers[b].(discard := true) else s.buffers[b])
    decreases |l|
  {
    hide GroupOk, Home, Internal, Distinct, Sizes, IdsOk;
    if l != [] {
      UsedBuffer(s, i, l[0]);
      MarkBooks(s, l[0], s.buffers[l[0]].(discard := true));
      var u := Discard(s, l[0]);
      DiscardAllInv(u, i, l[1..]);
      assert l == [l[0]] + l[1..];
    }
  }

  lemma UsedBuffer(s: State, i: nat, b: nat)
    requires Books(s) && i in s.groups && b in s.groups[i].usedList
    ensures b in s.buffers && s.buffers[b].group == i && s.buffers[b].used && BufferOk(s.buffers[b])
  {
    assert GroupOk(s.groups[i], i, s.buffers);
    assert Listed(s.buffers, b, i, true);
  }

  /** The first waiting buffer that is large enough. */
  ghost predicate FirstFit(bs: map<nat, Buffer>, l: seq<nat>, size: nat, r: Option<nat>) {
    match r
    case None => forall b <- l :: b in bs ==> bs[b].size < size
    case Some(b) =>
      exists k :: 0 <= k < |l| && l[k] == b && b in bs && bs[b].size >= size
                  && forall j :: 0 <= j < k ==> l[j] in bs ==> bs[l[j]].size < size
  }

  /** What the search leaves behind: a buffer taken, or none, and smaller waiting ones possibly freed. */
  ghost predicate Searched(s: State, i: nat, t: State, r: Option<nat>) {
    && i in s.groups && i in t.groups && !t.groups[i].orphan && t.groups[i].internal == s.groups[i].internal
    && t.peak == s.peak && t.made == s.made && t.groups - {i} == s.groups - {i}
    && (r.Some? ==> && r.value in s.buffers && r.value in t.buffers && !s.buffers[r.value].used
                    && t.buffers[r.value] == s.buffers[r.value].(refs := 1, used := true))
    && (forall b :: b in s.buffers && (s.buffers[b].used || s.buffers[b].group != i) ==>
         b in t.buffers && t.buffers[b] == s.buffers[b])
    && (forall b :: b in t.buffers && r != Some(b) ==> b in s.buffers && t.buffers[b] == s.buffers[b])
  }

  lemma SearchedTake(s: State, b: nat)
    requires b in s.buffers && s.buffers[b].group in s.groups && !s.groups[s.buffers[b].group].orphan
    requires !s.buffers[b].used && s.buffers[b].refs == 0
    ensures Searched(s, s.buffers[b].group, Take(s, b), Some(b))
  {
  }

  lemma SearchedNone(s: State, i: nat)
    requires i in s.groups && !s.groups[i].orphan
    ensures Searched(s, i, s, None)
  {
  }

  lemma SearchedFree(s: State, i: nat, b: nat, t: State, r: Option<nat>)
    requires b in s.buffers && s.buffers[b].group == i && i in s.groups && !s.buffers[b].used
    requires Searched(Free(s, b), i, t, r)
    ensures Searched(s, i, t, r)
  {
    var u := Free(s, b);
    assert u.groups - {i} == s.groups - {i};
    assert u.groups[i].internal == s.groups[i].internal;
    assert u.buffers == s.buffers - {b};
  }

  lemma {:induction false} SearchInv(s: State, i: nat, l: seq<nat>, size: nat)
    requires Inv(s) && Waiting(s, i, l) && !s.groups[i].orphan
    ensures var (t, r) := Search(s, i, l, size);
            && Inv(t) && Searched(s, i, t, r) && FirstFit(s.buffers, l, size, r) && Internal(t.groups) <= Internal(s.groups)
    decreases |l|
  {
    hide GroupOk, Home, Internal, Without, Distinct, Sizes, IdsOk, Searched;
    if l != [] {
      WaitingBuffer(s, i, l);
      var b := l[0];
      if s.buffers[b].size >= size {
        TakeBooks(s, b);
        SearchedTake(s, b);
      } else {
        var u := if s.groups[i].internal then Free(s, b) else s;
        FreeHead(s, i, l);
        FreeBooks(s, b);
        SearchInv(u, i, l[1..], size);
        var (t, r) := Search(u, i, l[1..], size);
        FirstFitCons(s.buffers, u.buffers, l, size, r);
        if s.groups[i].internal { SearchedFree(s, i, b, t, r); }
      }
    } else {
      SearchedNone(s, i);
    }
  }

  lemma FirstFitCons(bs: map<nat, Buffer>, cs: map<nat, Buffer>, l: seq<nat>, size: nat, r: Option<nat>)
    requires l != [] && l[0] in bs && bs[l[0]].size < size && l[0] !in l[1..]
    requires cs == bs || cs == bs - {l[0]}
    requires FirstFit(cs, l[1..], size, r)
    ensures FirstFit(bs, l, size, r)
  {
    assert l == [l[0]] + l[1..];
    if r.Some? {
      var m := l[1..];
      var k :| 0 <= k < |m| && m[k] == r.value && r.value in cs && cs[r.value].size >= size
               && forall j :: 0 <= j < k ==> m[j] in cs ==> cs[m[j]].size < size;
      assert l[k + 1] == r.value;
      forall j | 0 <= j < k + 1 ensures l[j] in bs ==> bs[l[j]].size < size {
        if j > 0 { assert m[j - 1] == l[j]; }
      }
    }
  }
}
