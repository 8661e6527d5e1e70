/**
 The reference-counted buffer allocator: groups with a used and an unused list,
 buffers that are reused, discarded or freed on their last put, groups that
 outlive their owner as orphans, wrapping group ids and service-wide totals.
 One API call is one step.
 */
module Buffers {
  import opened Common

  const LIMIT: nat := 0x1_0000_0000      // ids and totals are 32 bits wide

  /** Buffers and groups are named: a buffer by its serial number, a group by its id. */
  datatype Buffer = Buffer(group: nat, index: nat, size: nat, refs: nat, used: bool, discard: bool)

  /**
   `forgets` tells of an allocator whose release clears the recorded size before the
   group subtracts it; `lost` is history: the bytes that were not given back for it.
   */
  datatype Group = Group(
    internal: bool,
    kind: nat,
    forgets: bool,
    misc: bool,
    orphan: bool,
    limitSize: nat,
    limitCount: nat,
    usage: int,
    lost: nat,
    nextIndex: nat,
    count: int,
    usedList: seq<nat>,
    unusedList: seq<nat>,
    countUsed: int,
    countUnused: int)

  datatype State = State(
    groups: map<nat, Group>,
    buffers: map<nat, Buffer>,
    made: nat,               // buffers made so far
    groupId: nat,
    overflowed: bool,
    groupCount: int,
    total: nat,
    peak: nat)

  const EMPTY := State(map[], map[], 0, 1, false, 0, 0, 0)

  function NewGroup(internal: bool, kind: nat, forgets: bool, misc: bool): Group {
    Group(internal, kind, forgets, misc, false, 0, 0, 0, 0, 0, 0, [], [], 0, 0)
  }

  /** What a release gives back: a forgetful allocator leaves a size of zero, and only external groups release. */
  function Given(g: Group, size: nat): nat {
    if g.internal || !g.forgets then size else 0
  }

  /** The bytes the listed buffers take. */
  function Sizes(bs: map<nat, Buffer>, l: seq<nat>): nat {
    if l == [] then 0 else (if l[0] in bs then bs[l[0]].size else 0) + Sizes(bs, l[1..])
  }

  lemma {:induction false} SizesAppend(bs: map<nat, Buffer>, l: seq<nat>, b: nat)
    requires b in bs
    ensures Sizes(bs, l + [b]) == Sizes(bs, l) + bs[b].size
  {
    if l != [] {
      assert (l + [b])[1..] == l[1..] + [b];
      SizesAppend(bs, l[1..], b);
    }
  }

  lemma {:induction false} SizesWithout(bs: map<nat, Buffer>, l: seq<nat>, b: nat)
    requires b in l && b in bs
    ensures Sizes(bs, Without(l, b)) == Sizes(bs, l) - bs[b].size
  {
    if l[0] != b { SizesWithout(bs, l[1..], b); }
  }

  lemma {:induction false} SizesFrame(bs: map<nat, Buffer>, cs: map<nat, Buffer>, l: seq<nat>)
    requires forall b <- l :: b in bs && b in cs && bs[b].size == cs[b].size
    ensures Sizes(bs, l) == Sizes(cs, l)
  {
    if l != [] { SizesFrame(bs, cs, l[1..]); }
  }

  // ----- the parts of a call

  /** `inc_total`: the sum wraps, the maximum follows it. */
  function IncTotal(s: State, size: nat): State {
    var t := (s.total + size) % LIMIT;
    s.(total := t, peak := if t > s.peak then t else s.peak)
  }

  function DecTotal(s: State, size: nat): State {
    s.(total := (s.total - size) % LIMIT)
  }

  /** `put_buffer` on the reuse path. */
  function Reuse(s: State, b: nat): State
    requires b in s.buffers && s.buffers[b].group in s.groups
  {
    var i := s.buffers[b].group;
    var g := s.groups[i];
    var g' := if s.buffers[b].used
              then g.(usedList := Without(g.usedList, b), countUsed := g.countUsed - 1,
                      unusedList := g.unusedList + [b], countUnused := g.countUnused + 1)
              else g.(unusedList := Without(g.unusedList, b));
    s.(groups := s.groups[i := g'], buffers := s.buffers[b := s.buffers[b].(used := false)])
  }

  /** `put_buffer` on the release path, up to the orphan test. */
  function Free(s: State, b: nat): State
    requires b in s.buffers && s.buffers[b].group in s.groups
  {
    var v := s.buffers[b];
    var g := s.groups[v.group];
    var g' := if v.used then g.(usedList := Without(g.usedList, b), countUsed := g.countUsed - 1)
              else g.(unusedList := Without(g.unusedList, b), countUnused := g.countUnused - 1);
    var t := s.(groups := s.groups[v.group := g'.(usage := g.usage - Given(g, v.size), count := g.count - 1,
                                                  lost := g.lost + (v.size - Given(g, v.size)))],
                buffers := s.buffers - {b});
    if g.internal then DecTotal(t, v.size) else t
  }

  function Destroy(s: State, i: nat): State {
    s.(groups := s.groups - {i}, groupCount := s.groupCount - 1)
  }

  /**
   `put_group` on an orphan without usage can be followed while it does not run into
   itself: a waiting buffer it releases finds the usage at zero and puts the group again,
   which is harmless for one buffer of a group that stays, and otherwise goes on with
   a record that was freed.
   */
  predicate Settles(g: Group) {
    g.unusedList == [] || (|g.unusedList| == 1 && g.usedList != [])
  }

  function Settle(s: State, i: nat): State
    requires i in s.groups
  {
    var g := s.groups[i];
    if g.unusedList == [] then (if g.usedList == [] then Destroy(s, i) else s)
    else if g.unusedList[0] in s.buffers && s.buffers[g.unusedList[0]].group == i then Free(s, g.unusedList[0])
    else s
  }

  /** `put_buffer` on the release path: an orphan whose usage falls to zero is put again. */
  function Release(s: State, b: nat): State
    requires b in s.buffers && s.buffers[b].group in s.groups
  {
    var i := s.buffers[b].group;
    var t := Free(s, b);
    if t.groups[i].orphan && t.groups[i].usage == 0 then Settle(t, i) else t
  }

  predicate ReleaseSettles(s: State, b: nat)
    requires b in s.buffers && s.buffers[b].group in s.groups
  {
    var g := Free(s, b).groups[s.buffers[b].group];
    g.orphan && g.usage == 0 ==> Settles(g)
  }

  /** Frees buffers of a group that is no orphan, in list order. */
  function FreeAll(s: State, l: seq<nat>): State
    decreases |l|
  {
    if l == [] then s
    else if l[0] in s.buffers && s.buffers[l[0]].group in s.groups then FreeAll(Free(s, l[0]), l[1..])
    else FreeAll(s, l[1..])
  }

  function Discard(s: State, b: nat): State
    requires b in s.buffers
  {
    s.(buffers := s.buffers[b := s.buffers[b].(discard := true)])
  }

  function DiscardAll(s: State, l: seq<nat>): State
    decreases |l|
  {
    if l == [] then s
    else DiscardAll(if l[0] in s.buffers then Discard(s, l[0]) else s, l[1..])
  }

  /** An unused buffer becomes used, at the end of the used list. */
  function Take(s: State, b: nat): State
    requires b in s.buffers && s.buffers[b].group in s.groups
  {
    var v := s.buffers[b];
    var g := s.groups[v.group];
    var g' := g.(unusedList := Without(g.unusedList, b), countUnused := g.countUnused - 1,
                 usedList := g.usedList + [b], countUsed := g.countUsed + 1);
    s.(groups := s.groups[v.group := g'], buffers := s.buffers[b := v.(refs := v.refs + 1, used := true)])
  }

  /** The search of `mpp_buffer_get_unused` along the unused list. */
  function Search(s: State, i: nat, l: seq<nat>, size: nat): (State, Option<nat>)
    decreases |l|
  {
    if l == [] then (s, None)
    else
      var b := l[0];
      if b !in s.buffers || s.buffers[b].group != i || i !in s.groups then (s, None)
      else if s.buffers[b].size >= size then (Take(s, b), Some(b))
      else Search(if s.groups[i].internal then Free(s, b) else s, i, l[1..], size)
  }

  // ----- API calls

  datatype Call =
    | GroupGet(internal: bool, kind: nat, forgets: bool, misc: bool, id: nat)
    | GroupPut(id: nat)
    | GroupClear(id: nat)
    | LimitConfig(id: nat, limitSize: nat, limitCount: nat)
    | Import(id: nat, kind: nat, size: nat, take: bool, alloc: bool)
    | Get(id: nat, size: nat, alloc: bool)
    | RefInc(buffer: nat)
    | RefDec(buffer: nat)

  /** The first free id at or behind `from`, counting around. */
  ghost predicate FirstFree(live: set<nat>, from: nat, id: nat) {
    exists k: nat :: k < LIMIT && FreeAfter(live, from, id, k)
  }

  ghost predicate FreeAfter(live: set<nat>, from: nat, id: nat, k: nat) {
    id == At(from, k) && id !in live && forall j: nat :: j < k ==> At(from, j) in live
  }

  function At(from: nat, k: nat): nat {
    (from + k) % LIMIT
  }

  /** What `get_group_id` may answer: the counter until it wraps, then the first id that is free. */
  ghost predicate IdGiven(s: State, id: nat) {
    if !s.overflowed && s.groupId != 0 then id == s.groupId
    else FirstFree(s.groups.Keys, if s.overflowed then s.groupId else 1, id)
  }

  function AfterId(s: State, id: nat): State {
    s.(groupId := (id + 1) % LIMIT, overflowed := s.overflowed || s.groupId == 0, groupCount := s.groupCount + 1)
  }

  /** The put of the last reference to a buffer of an orphan runs `put_group` into itself. */
  predicate Breaks(s: State, c: Call) {
    && c.RefDec? && c.buffer in s.buffers && s.buffers[c.buffer].group in s.groups
    && s.buffers[c.buffer].refs == 1 && !Reusable(s, c.buffer) && !ReleaseSettles(s, c.buffer)
  }

  /** A client uses a group until it puts it, and the buffers it holds; a call that breaks has no next state. */
  ghost predicate Legal(s: State, c: Call) {
    match c
    case GroupGet(_, _, _, _, id) => IdGiven(s, id)
    case GroupPut(i) => i in s.groups && !s.groups[i].orphan
    case GroupClear(i) => i in s.groups && !s.groups[i].orphan
    case LimitConfig(i, _, _) => i in s.groups && !s.groups[i].orphan
    case Import(i, _, _, _, _) => i in s.groups && !s.groups[i].orphan
    case Get(i, _, _) => i in s.groups && !s.groups[i].orphan
    case RefInc(b) => b in s.buffers && s.buffers[b].group in s.groups
    case RefDec(b) => b in s.buffers && s.buffers[b].group in s.groups && !Breaks(s, c)
  }

  function PutGroup(s: State, i: nat): State
    requires i in s.groups
  {
    var t := FreeAll(s, s.groups[i].unusedList);
    if i !in t.groups then t
    else if t.groups[i].usedList == [] then Destroy(t, i)
    else t.(groups := t.groups[i := t.groups[i].(orphan := true)])
  }

  function ClearGroup(s: State, i: nat): State
    requires i in s.groups
  {
    FreeAll(DiscardAll(s, s.groups[i].usedList), s.groups[i].unusedList)
  }

  predicate AtLimit(g: Group, size: nat) {
    (g.limitCount != 0 && g.count >= g.limitCount) || (g.limitSize != 0 && size > g.limitSize)
  }

  /** `mpp_buffer_create`, taken by the caller or put on the unused list. */
  function Create(s: State, i: nat, size: nat, take: bool): State
    requires i in s.groups
  {
    var g := s.groups[i];
    var b := s.made;
    var v := Buffer(i, g.nextIndex, size, if take then 1 else 0, take, false);
    var g' := if take then g.(usedList := g.usedList + [b], countUsed := g.countUsed + 1)
              else g.(unusedList := g.unusedList + [b], countUnused := g.countUnused + 1);
    var t := s.(groups := s.groups[i := g'.(nextIndex := g.nextIndex + 1, usage := g.usage + size, count := g.count + 1)],
                buffers := s.buffers[b := v], made := s.made + 1);
    if g.internal then IncTotal(t, size) else t
  }

  function TryCreate(s: State, i: nat, size: nat, take: bool, alloc: bool): State
    requires i in s.groups
  {
    if AtLimit(s.groups[i], size) || !alloc then s else Create(s, i, size, take)
  }

  /** `mpp_buffer_import_with_tag`: only for an external group of the same kind. */
  function ImportBuffer(s: State, i: nat, kind: nat, size: nat, take: bool, alloc: bool): State
    requires i in s.groups
  {
    if s.groups[i].kind != kind || s.groups[i].internal then s else TryCreate(s, i, size, take, alloc)
  }

  function IncRef(s: State, b: nat): State
    requires b in s.buffers && s.buffers[b].group in s.groups
  {
    if s.buffers[b].used then s.(buffers := s.buffers[b := s.buffers[b].(refs := s.buffers[b].refs + 1)])
    else Take(s, b)
  }

  predicate Reusable(s: State, b: nat)
    requires b in s.buffers && s.buffers[b].group in s.groups
  {
    !s.groups[s.buffers[b].group].misc && !s.buffers[b].discard
  }

  /** `mpp_buffer_ref_dec`; a count that is not positive is an error and changes nothing. */
  function DecRef(s: State, b: nat): State
    requires b in s.buffers && s.buffers[b].group in s.groups
  {
    if s.buffers[b].refs == 0 then s
    else
      var t := s.(buffers := s.buffers[b := s.buffers[b].(refs := s.buffers[b].refs - 1)]);
      if t.buffers[b].refs > 0 then t
      else if Reusable(s, b) then Reuse(t, b)
      else Release(t, b)
  }

  function Found(s: State, i: nat, size: nat): (State, Option<nat>)
    requires i in s.groups
  {
    Search(s, i, s.groups[i].unusedList, size)
  }

  /** `mpp_buffer_get_with_tag`; an empty size is an error. */
  function GetBuffer(s: State, i: nat, size: nat, alloc: bool): (State, Option<nat>)
    requires i in s.groups
  {
    if size == 0 then (s, None)
    else
      var (t, b) := Found(s, i, size);
      if b.None? && i in t.groups && t.groups[i].internal && !AtLimit(t.groups[i], size) && alloc
      then (Create(t, i, size, true), Some(t.made))
      else (t, b)
  }

  ghost function Next(s: State, c: Call): State
    requires Legal(s, c)
  {
    match c
    case GroupGet(internal, kind, forgets, misc, id) =>
      AfterId(s, id).(groups := s.groups[id := NewGroup(internal, kind, forgets, misc)])
    case GroupPut(i) => PutGroup(s, i)
    case GroupClear(i) => ClearGroup(s, i)
    case LimitConfig(i, size, count) =>
      s.(groups := s.groups[i := s.groups[i].(limitSize := size, limitCount := count)])
    case Import(i, kind, size, take, alloc) => ImportBuffer(s, i, kind, size, take, alloc)
    case Get(i, size, alloc) => GetBuffer(s, i, size, alloc).0
    case RefInc(b) => IncRef(s, b)
    case RefDec(b) => DecRef(s, b)
  }
}
