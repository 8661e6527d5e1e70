/**
 Reference counts, generations, orphans and totals over whole runs.
 */
module BufferRuns {
  import opened Common
  import opened Buffers
  import opened BufferInv
  import opened BufferTheorems

  // ----- references

  function Balance(cs: seq<Call>, b: nat): int {
    if cs == [] then 0 else Delta(cs[0], b) + Balance(cs[1..], b)
  }

  /** From `n` references on, no call of the run puts the last one. */
  ghost predicate HeldThrough(n: int, cs: seq<Call>, b: nat)
    decreases |cs|
  {
    cs == [] || (n + Delta(cs[0], b) > 0 && HeldThrough(n + Delta(cs[0], b), cs[1..], b))
  }

  /** While somebody holds a buffer nothing frees it, and the count is the balance of the calls. */
  lemma {:induction false} HeldRun(s: State, cs: seq<Call>, b: nat)
    requires Inv(s) && LegalRun(s, cs) && b in s.buffers && s.buffers[b].refs > 0
    requires HeldThrough(s.buffers[b].refs, cs, b)
    ensures var t := After(s, cs);
            b in t.buffers && t.buffers[b].refs == s.buffers[b].refs + Balance(cs, b) && t.buffers[b].group == s.buffers[b].group
            && t.buffers[b].group in t.groups && b in t.groups[t.buffers[b].group].usedList
    decreases |cs|
  {
    hide Inv, Next, Legal, Delta, Home;
    if cs != [] {
      NextInv(s, cs[0]);
      RefsStep(s, cs[0], b);
      HeldRun(Next(s, cs[0]), cs[1..], b);
    } else {
      UsedWhere(s, b);
    }
  }

  lemma UsedWhere(s: State, b: nat)
    requires Inv(s) && b in s.buffers && s.buffers[b].refs > 0
    ensures s.buffers[b].group in s.groups && b in s.groups[s.buffers[b].group].usedList
  {
    assert Home(s, b);
    KnownBuffer(s, b);
  }

  // ----- generations

  /** Every buffer of group `i` made before `mark` is marked. */
  ghost predicate Cleared(s: State, i: nat, mark: nat) {
    mark <= s.made && forall b :: b in s.buffers && b < mark && s.buffers[b].group == i ==> s.buffers[b].discard
  }

  lemma ClearedStep(s: State, c: Call, i: nat, mark: nat)
    requires Inv(s) && Legal(s, c) && Cleared(s, i, mark)
    ensures Cleared(Next(s, c), i, mark)
  {
    hide Inv, Next, Legal;
    StepBuffers(s, c);
    var t := Next(s, c);
    forall b | b in t.buffers && b < mark && t.buffers[b].group == i ensures t.buffers[b].discard {
      assert Descends(s, c, t, b);
    }
  }

  lemma {:induction false} ClearedRun(s: State, cs: seq<Call>, i: nat, mark: nat)
    requires Inv(s) && LegalRun(s, cs) && Cleared(s, i, mark)
    ensures Cleared(After(s, cs), i, mark)
    decreases |cs|
  {
    hide Inv, Next, Legal, Cleared;
    if cs != [] {
      NextInv(s, cs[0]);
      ClearedStep(s, cs[0], i, mark);
      ClearedRun(Next(s, cs[0]), cs[1..], i, mark);
    }
  }

  lemma ClearMarks(s: State, i: nat)
    requires Inv(s) && i in s.groups && !s.groups[i].orphan
    ensures Inv(ClearGroup(s, i)) && Cleared(ClearGroup(s, i), i, s.made)
  {
    hide GroupOk, Home, ClearGroup;
    ClearGroupInv(s, i);
  }

  /** After a clear, however long ago, a get never returns a buffer made before it. */
  lemma NeverReturned(s: State, i: nat, cs: seq<Call>, size: nat, alloc: bool)
    requires Inv(s) && Legal(s, GroupClear(i)) && LegalRun(ClearGroup(s, i), cs)
    requires Legal(After(ClearGroup(s, i), cs), Get(i, size, alloc))
    ensures var r := GetBuffer(After(ClearGroup(s, i), cs), i, size, alloc).1;
            r.Some? ==> r.value >= s.made
  {
    hide Inv, ClearGroup, GetBuffer, LegalRun, After;
    var u := ClearGroup(s, i);
    ClearMarks(s, i);
    RunInv(u, cs);
    ClearedRun(u, cs, i, s.made);
    var t := After(u, cs);
    GetInv(t, i, size, alloc);
    GetMarks(t, i, size, alloc);
  }

  // ----- orphans

  ghost function Target(s: State, c: Call): nat {
    match c
    case RefInc(b) => if b in s.buffers then s.buffers[b].group else 0
    case RefDec(b) => if b in s.buffers then s.buffers[b].group else 0
    case _ => c.id
  }

  /** A call changes no group but its own. */
  lemma OtherGroups(s: State, c: Call, i: nat)
    requires Inv(s) && Legal(s, c) && i in s.groups && Target(s, c) != i
    ensures var t := Next(s, c); i in t.groups && t.groups[i] == s.groups[i]
  {
    hide GroupOk, Home, Internal, IdsOk, PutGroup, ClearGroup, GetBuffer, IdGiven, Search, Release;
    var j := Target(s, c);
    match c {
    case GroupGet(_, _, _, _, _) =>
    case GroupPut(_) => PutGroupInv(s, j);
    case GroupClear(_) => ClearGroupInv(s, j);
    case LimitConfig(_, _, _) =>
    case Import(_, _, size, take, _) =>
    case Get(_, size, alloc) => GetOthers(s, j, size, alloc);
    case RefInc(b) =>
    case RefDec(b) => if s.buffers[b].refs == 1 && !Reusable(s, b) { FreeDropped(s, b); ReleaseInv(s, b); }
    }
    var t := Next(s, c);
    assert t.groups - {j} == s.groups - {j} || c.GroupGet?;
    if !c.GroupGet? {
      assert i in s.groups - {j};
      assert (t.groups - {j})[i] == (s.groups - {j})[i];
    }
  }

  lemma GetOthers(s: State, i: nat, size: nat, alloc: bool)
    requires Inv(s) && i in s.groups && !s.groups[i].orphan
    ensures GetBuffer(s, i, size, alloc).0.groups - {i} == s.groups - {i}
  {
    hide GroupOk, Home, Internal, IdsOk, Search;
    WaitingSelf(s, i);
    SearchInv(s, i, s.groups[i].unusedList, size);
    var (u, f) := Found(s, i, size);
    if i in u.groups { CreateFacts(u, i, size, true); }
  }

  ghost predicate AllMarked(s: State, i: nat) {
    forall b :: b in s.buffers && s.buffers[b].group == i ==> s.buffers[b].discard
  }

  /** An orphan whose buffers are all held and none of them can be reused. */
  ghost predicate Dying(s: State, i: nat) {
    && i in s.groups && s.groups[i].orphan && s.groups[i].unusedList == [] && s.groups[i].count > 0
    && (s.groups[i].misc || AllMarked(s, i))
  }

  /** An orphan without buffers whose usage will never fall to zero. */
  ghost predicate Leftover(s: State, i: nat) {
    i in s.groups && s.groups[i].orphan && s.groups[i].count == 0 && s.groups[i].usage > 0
  }

  /** The call puts the last reference to the last buffer of group `i`. */
  ghost predicate LastPut(s: State, c: Call, i: nat) {
    && i in s.groups && c.RefDec? && c.buffer in s.buffers && s.buffers[c.buffer].group == i
    && s.buffers[c.buffer].refs == 1 && s.groups[i].count == 1
  }

  /** All bytes of the group come back with buffer `b`: none was lost before and none is lost with it. */
  predicate GivesAllBack(g: Group, size: nat) {
    g.lost == 0 && (g.internal || !g.forgets || size == 0)
  }

  /** While it lives, clients hold all buffers of a dying orphan. */
  lemma DyingIsHeld(s: State, i: nat)
    requires Inv(s) && Dying(s, i)
    ensures s.groups[i].usedList != []
    ensures forall b :: b in s.buffers && s.buffers[b].group == i ==> s.buffers[b].refs > 0
  {
    UsageNat(s, i);
    forall b | b in s.buffers && s.buffers[b].group == i ensures s.buffers[b].refs > 0 {
      WhoseBuffer(s, i, b);
      KnownBuffer(s, b);
    }
  }

  /** A dying orphan stays dying until the last put; then it goes exactly when all its bytes were given back. */
  lemma DyingStep(s: State, c: Call, i: nat)
    requires Inv(s) && Legal(s, c) && Dying(s, i)
    ensures !LastPut(s, c, i) ==> Dying(Next(s, c), i)
    ensures LastPut(s, c, i) ==>
              if GivesAllBack(s.groups[i], s.buffers[c.buffer].size) then i !in Next(s, c).groups else Leftover(Next(s, c), i)
  {
    hide Inv, Next, Legal;
    var t := Next(s, c);
    StepBuffers(s, c);
    NotAcquired(s, c, i);
    if AllMarked(s, i) {
      forall b | b in t.buffers && t.buffers[b].group == i ensures t.buffers[b].discard {
        assert Descends(s, c, t, b);
      }
    }
    if Target(s, c) != i {
      OtherGroups(s, c, i);
    } else {
      DyingOwn(s, c, i);
    }
  }

  lemma NotAcquired(s: State, c: Call, i: nat)
    requires Legal(s, c) && Dying(s, i)
    ensures !Acquires(c, i)
  {
    hide IdGiven;
  }

  /** The calls on a dying orphan itself. */
  lemma DyingOwn(s: State, c: Call, i: nat)
    requires Inv(s) && Legal(s, c) && Dying(s, i) && Target(s, c) == i
    ensures var t := Next(s, c);
            if !LastPut(s, c, i) then
              i in t.groups && t.groups[i].orphan && t.groups[i].unusedList == [] && t.groups[i].misc == s.groups[i].misc
              && t.groups[i].count > 0
            else if GivesAllBack(s.groups[i], s.buffers[c.buffer].size) then i !in t.groups
            else Leftover(t, i)
  {
    hide GroupOk, Home, Internal, IdsOk, IdGiven, PutGroup, ClearGroup, GetBuffer, TryCreate, Release;
    if c.GroupGet? {
      IdFresh(s, c.id);
    } else {
      assert c.RefInc? || c.RefDec?;
      var b := c.buffer;
      KnownBuffer(s, b);
      DyingIsHeld(s, i);
      WhoseBuffer(s, i, b);
      UsageNat(s, i);
      if c.RefDec? && s.buffers[b].refs == 1 {
        FreeDropped(s, b);
        ReleaseInv(s, b);
        if s.groups[i].count == 1 { LastUsage(s, b); }
      }
    }
  }

  /** The usage at the last put is the buffer's size and what was lost. */
  lemma LastUsage(s: State, b: nat)
    requires Inv(s) && b in s.buffers && s.buffers[b].group in s.groups && s.groups[s.buffers[b].group].count == 1
    ensures var g := s.groups[s.buffers[b].group]; g.usage == s.buffers[b].size + g.lost
    ensures var g := s.groups[s.buffers[b].group];
            g.orphan && s.buffers[b].used ==>
              if GivesAllBack(g, s.buffers[b].size) then Gone(g, s.buffers[b].size)
              else !Gone(g, s.buffers[b].size) && Leftover(Release(s, b), s.buffers[b].group)
  {
    hide Distinct, Sizes;
    var i := s.buffers[b].group;
    var g := s.groups[i];
    OnlyBuffer(s, b);
    FreeShape(s, b);
  }

  lemma OnlyBuffer(s: State, b: nat)
    requires Inv(s) && b in s.buffers && s.buffers[b].group in s.groups && s.groups[s.buffers[b].group].count == 1
    ensures var g := s.groups[s.buffers[b].group];
            && g.usage == s.buffers[b].size + g.lost
            && (s.buffers[b].used ==> g.usedList == [b] && g.unusedList == [])
  {
    hide Distinct;
    var i := s.buffers[b].group;
    var g := s.groups[i];
    assert Home(s, b);
    assert GroupOk(g, i, s.buffers);
    var l := if s.buffers[b].used then g.usedList else g.unusedList;
    assert l == [b];
    assert Sizes(s.buffers, [b]) == s.buffers[b].size by { assert [b][1..] == []; }
  }

  /** An orphan without buffers stays: no call has anything to do with it. */
  lemma LeftoverStep(s: State, c: Call, i: nat)
    requires Inv(s) && Legal(s, c) && Leftover(s, i)
    ensures Leftover(Next(s, c), i)
  {
    hide Inv, Next, IdGiven;
    if Target(s, c) != i {
      OtherGroups(s, c, i);
    } else {
      assert Inv(s);
      LeftoverOwn(s, c, i);
    }
  }

  lemma LeftoverOwn(s: State, c: Call, i: nat)
    requires Inv(s) && Legal(s, c) && Leftover(s, i)
    ensures Target(s, c) != i
  {
    hide GroupOk, Home, Internal, IdsOk, IdGiven;
    if c.GroupGet? { IdFresh(s, c.id); }
    UsageNat(s, i);
    if c.RefInc? || c.RefDec? { WhoseBuffer(s, i, c.buffer); }
  }

  /** An orphan with bytes in a buffer that will be reused. */
  ghost predicate Kept(s: State, i: nat) {
    && i in s.groups && s.groups[i].orphan && !s.groups[i].misc
    && exists b :: b in s.buffers && s.buffers[b].group == i && !s.buffers[b].discard && s.buffers[b].size > 0
  }

  /** Such an orphan is never reclaimed, whatever is put. */
  lemma KeptStep(s: State, c: Call, i: nat)
    requires Inv(s) && Legal(s, c) && Kept(s, i)
    ensures Kept(Next(s, c), i)
  {
    hide Inv, Next, Legal;
    var b :| b in s.buffers && s.buffers[b].group == i && !s.buffers[b].discard && s.buffers[b].size > 0;
    if Target(s, c) != i {
      OtherGroups(s, c, i);
      OtherBuffers(s, c, b);
    } else {
      KeptOwn(s, c, i, b);
    }
    var t := Next(s, c);
    assert b in t.buffers && t.buffers[b].group == i && !t.buffers[b].discard && t.buffers[b].size > 0;
  }

  /** A call on another group leaves a buffer alone. */
  lemma OtherBuffers(s: State, c: Call, b: nat)
    requires Inv(s) && Legal(s, c) && b in s.buffers && Target(s, c) != s.buffers[b].group
    ensures b in Next(s, c).buffers && Next(s, c).buffers[b] == s.buffers[b]
  {
    hide GroupOk, Home, Internal, IdsOk, PutGroup, ClearGroup, GetBuffer, IdGiven;
    KnownBuffer(s, b);
    match c
    case GroupGet(_, _, _, _, _) =>
    case GroupPut(j) => PutGroupInv(s, j); WhoseBuffer(s, j, b);
    case GroupClear(j) => ClearGroupInv(s, j); WhoseBuffer(s, j, b);
    case LimitConfig(_, _, _) =>
    case Import(j, _, size, take, _) => FreshBuffer(s); CreateFacts(s, j, size, take);
    case Get(j, size, alloc) => GetInv(s, j, size, alloc);
    case RefInc(_) =>
    case RefDec(d) => DecRefFacts(s, d);
  }

  lemma KeptOwn(s: State, c: Call, i: nat, b: nat)
    requires Inv(s) && Legal(s, c) && Kept(s, i) && Target(s, c) == i
    requires b in s.buffers && s.buffers[b].group == i && !s.buffers[b].discard && s.buffers[b].size > 0
    ensures var t := Next(s, c);
            && i in t.groups && t.groups[i].orphan && !t.groups[i].misc
            && b in t.buffers && t.buffers[b].group == i && !t.buffers[b].discard && t.buffers[b].size > 0
  {
    hide GroupOk, Home, Internal, IdsOk, IdGiven, PutGroup, ClearGroup, GetBuffer, TryCreate, Release;
    if c.GroupGet? {
      IdFresh(s, c.id);
    } else if c.RefDec? {
      var d := c.buffer;
      DecRefFacts(s, d);
      if s.buffers[d].refs == 1 && !Reusable(s, d) {
        FreeDropped(s, d);
        ReleaseInv(s, d);
        FreeBooks(s, d);
        FreeShape(s, d);
        UsageCovers(Free(s, d), i, b);
      }
    }
  }

  lemma {:induction false} KeptRun(s: State, cs: seq<Call>, i: nat)
    requires Inv(s) && LegalRun(s, cs) && Kept(s, i)
    ensures Kept(After(s, cs), i)
    decreases |cs|
  {
    hide Inv, Next, Legal, Kept;
    if cs != [] {
      NextInv(s, cs[0]);
      KeptStep(s, cs[0], i);
      KeptRun(Next(s, cs[0]), cs[1..], i);
    }
  }

  /** Some call of the run is the last put on group `i`. */
  ghost predicate EndsIn(s: State, cs: seq<Call>, i: nat)
    requires LegalRun(s, cs)
    decreases |cs|
  {
    cs != [] && (LastPut(s, cs[0], i) || EndsIn(Next(s, cs[0]), cs[1..], i))
  }

  /** Until the run puts its last buffer a dying orphan is alive and held. */
  lemma {:induction false} DyingRun(s: State, cs: seq<Call>, i: nat)
    requires Inv(s) && LegalRun(s, cs) && Dying(s, i)
    ensures !EndsIn(s, cs, i) ==> Dying(After(s, cs), i)
    decreases |cs|
  {
    hide Inv, Next, Legal, Dying, LastPut, Leftover;
    if cs != [] {
      NextInv(s, cs[0]);
      DyingStep(s, cs[0], i);
      if !LastPut(s, cs[0], i) {
        DyingRun(Next(s, cs[0]), cs[1..], i);
      }
    }
  }

  /** What was not given back keeps an orphan for good. */
  lemma {:induction false} LeftoverRun(s: State, cs: seq<Call>, i: nat)
    requires Inv(s) && LegalRun(s, cs) && Leftover(s, i)
    ensures Leftover(After(s, cs), i)
    decreases |cs|
  {
    hide Inv, Next, Legal, Leftover;
    if cs != [] {
      NextInv(s, cs[0]);
      LeftoverStep(s, cs[0], i);
      LeftoverRun(Next(s, cs[0]), cs[1..], i);
    }
  }

  /**
   Putting a group with outstanding buffers makes an orphan, and decides its fate.  It
   is dying exactly when it is a misc group or every outstanding buffer was marked by a
   clear, and kept for good when an unmarked one has bytes.
   */
  lemma OrphanFate(s: State, i: nat)
    requires Inv(s) && Legal(s, GroupPut(i))
    ensures var t := PutGroup(s, i); var l := s.groups[i].usedList;
            && (forall b <- l :: b in s.buffers)
            && if l == [] then i !in t.groups
               else
                 && (Dying(t, i) <==> s.groups[i].misc || forall b <- l :: s.buffers[b].discard)
                 && (Kept(t, i) <==> !s.groups[i].misc && exists b <- l :: !s.buffers[b].discard && s.buffers[b].size > 0)
  {
    hide GroupOk, Home, Internal, IdsOk, PutGroup;
    PutGroupInv(s, i);
    Outstanding(s, i);
    var t := PutGroup(s, i);
    if i in t.groups { UsageNat(t, i); }
    assert forall b :: b in t.buffers ==> t.buffers[b] == s.buffers[b];
    if i in t.groups && Kept(t, i) {
      var b :| b in t.buffers && t.buffers[b].group == i && !t.buffers[b].discard && t.buffers[b].size > 0;
      assert b in s.groups[i].usedList;
    }
  }

  /** Without its waiting buffers, a group's buffers are its used ones. */
  lemma Outstanding(s: State, i: nat)
    requires Inv(s) && i in s.groups
    ensures var bs := s.buffers - (set b <- s.groups[i].unusedList);
            && (forall b {:trigger b in bs} :: b in bs && s.buffers[b].group == i ==> b in s.groups[i].usedList)
            && (forall b {:trigger b in s.groups[i].usedList} :: b in s.groups[i].usedList ==> b in bs && s.buffers[b].group == i)
  {
    hide GroupOk, Home, Internal, IdsOk;
    forall b | b in s.buffers ensures s.buffers[b].group == i <==> b in s.groups[i].usedList || b in s.groups[i].unusedList {
      WhoseBuffer(s, i, b);
    }
    forall b | b in s.groups[i].usedList ensures b in s.buffers && s.buffers[b].used && b !in s.groups[i].unusedList {
      UsedBuffer(s, i, b);
      WhoseBuffer(s, i, b);
    }
  }

  /** No call of the run gets or imports a buffer for group `i`, or puts the group. */
  predicate Quiet(cs: seq<Call>, i: nat) {
    forall c <- cs :: !Acquires(c, i) && c != GroupPut(i)
  }

  lemma AllMarkedStep(s: State, c: Call, i: nat)
    requires Inv(s) && Legal(s, c) && i in s.groups && !s.groups[i].orphan && AllMarked(s, i)
    requires !Acquires(c, i) && c != GroupPut(i)
    ensures var t := Next(s, c); i in t.groups && !t.groups[i].orphan && AllMarked(t, i)
  {
    hide Inv, Next, Legal;
    StepBuffers(s, c);
    var t := Next(s, c);
    forall b | b in t.buffers && t.buffers[b].group == i ensures t.buffers[b].discard {
      assert Descends(s, c, t, b);
    }
    if Target(s, c) != i { OtherGroups(s, c, i); } else { OwnStays(s, c, i); }
  }

  lemma OwnStays(s: State, c: Call, i: nat)
    requires Inv(s) && Legal(s, c) && i in s.groups && !s.groups[i].orphan && Target(s, c) == i
    requires !Acquires(c, i) && c != GroupPut(i)
    ensures var t := Next(s, c); i in t.groups && !t.groups[i].orphan
  {
    hide GroupOk, Home, Internal, IdsOk, IdGiven, PutGroup, ClearGroup, GetBuffer, TryCreate;
    match c
    case GroupGet(_, _, _, _, id) => IdFresh(s, id);
    case GroupClear(_) => ClearGroupInv(s, i);
    case LimitConfig(_, _, _) =>
    case RefInc(_) =>
    case RefDec(b) => if s.buffers[b].refs == 1 && !Reusable(s, b) { FreeDropped(s, b); ReleaseInv(s, b); }
  }

  lemma QuietTail(cs: seq<Call>, i: nat)
    requires Quiet(cs, i) && cs != []
    ensures Quiet(cs[1..], i)
  {
    assert forall c <- cs[1..] :: c in cs;
  }

  lemma {:induction false} QuietRun(s: State, cs: seq<Call>, i: nat)
    requires Inv(s) && LegalRun(s, cs) && Quiet(cs, i) && i in s.groups && !s.groups[i].orphan && AllMarked(s, i)
    ensures var t := After(s, cs); i in t.groups && !t.groups[i].orphan && AllMarked(t, i)
    decreases |cs|
  {
    hide Inv, Next, Legal, AllMarked;
    if cs != [] {
      NextInv(s, cs[0]);
      AllMarkedStep(s, cs[0], i);
      QuietTail(cs, i);
      QuietRun(Next(s, cs[0]), cs[1..], i);
    }
  }

  /** Cleared, and put before anything else was acquired: the group dies with its last buffer. */
  lemma ClearThenPut(s: State, i: nat, cs: seq<Call>)
    requires Inv(s) && Legal(s, GroupClear(i)) && LegalRun(ClearGroup(s, i), cs) && Quiet(cs, i)
    ensures var t := After(ClearGroup(s, i), cs);
            && Inv(t) && i in t.groups && !t.groups[i].orphan
            && (i in PutGroup(t, i).groups ==> Dying(PutGroup(t, i), i))
  {
    hide Inv, ClearGroup, LegalRun, After, PutGroup, Dying, Kept, IdGiven, Breaks;
    var u := ClearGroup(s, i);
    ClearAll(s, i);
    RunInv(u, cs);
    QuietRun(u, cs, i);
    var t := After(u, cs);
    OrphanFate(t, i);
    forall b | b in t.groups[i].usedList ensures b in t.buffers && t.buffers[b].discard {
      MarkedUsed(t, i, b);
    }
  }

  lemma MarkedUsed(s: State, i: nat, b: nat)
    requires Inv(s) && i in s.groups && AllMarked(s, i) && b in s.groups[i].usedList
    ensures b in s.buffers && s.buffers[b].discard
  {
    UsedBuffer(s, i, b);
  }

  lemma ClearAll(s: State, i: nat)
    requires Inv(s) && Legal(s, GroupClear(i))
    ensures var t := ClearGroup(s, i); Inv(t) && i in t.groups && !t.groups[i].orphan && AllMarked(t, i)
  {
    hide GroupOk, Home, Internal, IdsOk, ClearGroup;
    ClearGroupInv(s, i);
  }

  // ----- calls that break

  /** No buffer of the group but `b` has bytes. */
  ghost predicate OthersEmpty(s: State, i: nat, b: nat) {
    forall d :: d in s.buffers && s.buffers[d].group == i && d != b ==> s.buffers[d].size == 0
  }

  /**
   The put of a last reference breaks exactly when the buffer is released out of an
   orphan that loses its last bytes with it, while empty buffers wait there: two of
   them, or one and no other buffer is held.
   */
  lemma BreaksIff(s: State, b: nat)
    requires Inv(s) && b in s.buffers && s.buffers[b].group in s.groups && s.buffers[b].refs == 1
    ensures var i := s.buffers[b].group; var g := s.groups[i];
            Breaks(s, RefDec(b)) <==>
              && !Reusable(s, b) && g.orphan && GivesAllBack(g, s.buffers[b].size) && OthersEmpty(s, i, b)
              && g.unusedList != [] && (|g.unusedList| > 1 || g.usedList == [b])
  {
    hide GroupOk, Home, Internal, IdsOk, Sizes, Without;
    var i := s.buffers[b].group;
    var g, u := s.groups[i], Free(s, b);
    KnownBuffer(s, b);
    FreeBooks(s, b);
    FreeShape(s, b);
    UsageZero(u, i);
    UsageNat(s, i);
    LastUsed(s, b);
    assert u.groups[i].lost == g.lost + s.buffers[b].size - Given(g, s.buffers[b].size);
    assert u.groups[i].lost == 0 <==> GivesAllBack(g, s.buffers[b].size);
    assert OthersEmpty(s, i, b) <==> forall d :: d in u.buffers && u.buffers[d].group == i ==> u.buffers[d].size == 0 by {
      forall d ensures d in u.buffers <==> d in s.buffers && d != b {}
      forall d | d in u.buffers ensures u.buffers[d] == s.buffers[d] {}
    }
  }

  lemma UsageZero(s: State, i: nat)
    requires Books(s) && i in s.groups
    ensures s.groups[i].usage == 0
            <==> s.groups[i].lost == 0 && forall d :: d in s.buffers && s.buffers[d].group == i ==> s.buffers[d].size == 0
  {
    hide Sizes, Distinct;
    var g := s.groups[i];
    assert GroupOk(g, i, s.buffers);
    SizesZero(s.buffers, g.usedList);
    SizesZero(s.buffers, g.unusedList);
    forall d | d in s.buffers && s.buffers[d].group == i ensures d in g.usedList || d in g.unusedList {
      assert Home(s, d);
    }
    forall d | d in g.usedList || d in g.unusedList ensures d in s.buffers && s.buffers[d].group == i {
      assert Listed(s.buffers, d, i, d in g.usedList && s.buffers[d].used);
    }
  }

  lemma {:induction false} SizesZero(bs: map<nat, Buffer>, l: seq<nat>)
    requires forall d <- l :: d in bs
    ensures Sizes(bs, l) == 0 <==> forall d <- l :: bs[d].size == 0
  {
    if l != [] {
      assert l[0] in l;
      SizesZero(bs, l[1..]);
      assert forall d :: d in l <==> d == l[0] || d in l[1..];
    }
  }

  lemma LastUsed(s: State, b: nat)
    requires Books(s) && b in s.buffers && s.buffers[b].group in s.groups && s.buffers[b].refs > 0
    ensures var g := s.groups[s.buffers[b].group];
            Free(s, b).groups[s.buffers[b].group].usedList == [] <==> g.usedList == [b]
  {
    KnownBuffer(s, b);
    assert Home(s, b);
    assert GroupOk(s.groups[s.buffers[b].group], s.buffers[b].group, s.buffers);
  }

  ghost predicate AllFull(s: State) {
    forall b :: b in s.buffers ==> s.buffers[b].size > 0
  }

  predicate FullImports(cs: seq<Call>) {
    forall c <- cs :: c.Import? ==> c.size > 0
  }

  lemma FullStep(s: State, c: Call)
    requires Inv(s) && Legal(s, c) && AllFull(s) && (c.Import? ==> c.size > 0)
    ensures AllFull(Next(s, c))
  {
    hide GroupOk, Home, Internal, IdsOk, PutGroup, ClearGroup, GetBuffer, IdGiven, Release;
    match c
    case GroupGet(_, _, _, _, _) =>
    case GroupPut(i) => PutGroupInv(s, i);
    case GroupClear(i) => ClearGroupInv(s, i);
    case LimitConfig(_, _, _) =>
    case Import(i, _, size, take, _) => CreateFacts(s, i, size, take);
    case Get(i, size, alloc) => GetInv(s, i, size, alloc); GetSizes(s, i, size, alloc);
    case RefInc(_) =>
    case RefDec(b) => DecRefFacts(s, b);
  }

  lemma GetSizes(s: State, i: nat, size: nat, alloc: bool)
    requires Inv(s) && i in s.groups && !s.groups[i].orphan
    ensures var (t, r) := GetBuffer(s, i, size, alloc); r.Some? ==> r.value in t.buffers && size > 0 && t.buffers[r.value].size >= size
  {
    hide Inv, GetBuffer;
    GetInv(s, i, size, alloc);
  }

  /** A client that never imports an empty buffer meets no call that breaks. */
  lemma {:induction false} NeverBreaks(s: State, cs: seq<Call>, c: Call)
    requires Inv(s) && AllFull(s) && LegalRun(s, cs) && FullImports(cs)
    ensures !Breaks(After(s, cs), c)
    decreases |cs|
  {
    hide Inv, Next, Legal, AllFull, Breaks;
    if cs == [] {
      FullDoesNotBreak(s, c);
    } else {
      assert cs[0] in cs && forall d <- cs[1..] :: d in cs;
      NextInv(s, cs[0]);
      FullStep(s, cs[0]);
      NeverBreaks(Next(s, cs[0]), cs[1..], c);
    }
  }

  lemma FullDoesNotBreak(s: State, c: Call)
    requires Inv(s) && AllFull(s)
    ensures !Breaks(s, c)
  {
    hide GroupOk, Home, IdsOk, Sizes, Without, ReleaseSettles;
    if Breaks(s, c) {
      BreaksIff(s, c.buffer);
      WaitingSelf(s, s.buffers[c.buffer].group);
      WaitingBuffer(s, s.buffers[c.buffer].group, s.groups[s.buffers[c.buffer].group].unusedList);
      KnownBuffer(s, c.buffer);
    }
  }

  /** An external group with an empty buffer that waits and a full one that was marked. */
  function Trap(buffer: Buffer, used: seq<nat>, unused: seq<nat>, orphan: bool): State {
    State(map[1 := Group(false, 1, false, false, orphan, 0, 0, 8, 0, 2, |used| + |unused|, used, unused, |used|, |unused|)],
          map[0 := Buffer(1, 0, 8, 1, true, true), 1 := buffer], 2, 2, false, 1, 0, 0)
  }

  const EMPTY_TAKEN := Buffer(1, 1, 0, 1, true, false)
  const TRAP_RUN := [GroupGet(false, 1, false, false, 1), Import(1, 1, 8, true, true), GroupClear(1),
                     Import(1, 1, 0, true, true), GroupPut(1), RefDec(1)]

  lemma TrapSet()
    ensures var s := EMPTY;
            && Legal(s, TRAP_RUN[0]) && var s1 := Next(s, TRAP_RUN[0]);
            && Legal(s1, TRAP_RUN[1]) && var s2 := Next(s1, TRAP_RUN[1]);
            && Legal(s2, TRAP_RUN[2]) && var s3 := Next(s2, TRAP_RUN[2]);
            && Legal(s3, TRAP_RUN[3]) && Next(s3, TRAP_RUN[3]) == Trap(EMPTY_TAKEN, [0, 1], [], false)
  {
    var s1 := Next(EMPTY, TRAP_RUN[0]);
    var s2 := Next(s1, TRAP_RUN[1]);
    assert s2.groups[1].usedList == [0];
    var s3 := Next(s2, TRAP_RUN[2]);
    assert DiscardAll(s2, [0]) == Discard(s2, 0) by { assert [0][1..] == []; }
    assert s3.buffers == map[0 := Buffer(1, 0, 8, 1, true, true)];
    var s4 := Next(s3, TRAP_RUN[3]);
    assert s4.buffers == map[0 := Buffer(1, 0, 8, 1, true, true), 1 := EMPTY_TAKEN];
    assert s4.groups[1].usedList == [0, 1] && s4.groups[1] == Trap(EMPTY_TAKEN, [0, 1], [], false).groups[1];
    assert s4.groups == Trap(EMPTY_TAKEN, [0, 1], [], false).groups;
  }

  lemma TrapShut()
    ensures var s := Trap(EMPTY_TAKEN, [0, 1], [], false);
            && Legal(s, TRAP_RUN[4]) && var s1 := Next(s, TRAP_RUN[4]);
            && Legal(s1, TRAP_RUN[5])
            && Next(s1, TRAP_RUN[5]) == Trap(EMPTY_TAKEN.(refs := 0, used := false), [0], [1], true)
  {
    var s := Trap(EMPTY_TAKEN, [0, 1], [], false);
    var s1 := Next(s, TRAP_RUN[4]);
    assert s1 == Trap(EMPTY_TAKEN, [0, 1], [], true);
    assert Without([0, 1], 1) == [0] by { assert [0, 1][1..] == [1] && [1][1..] == []; }
    var s2 := Next(s1, TRAP_RUN[5]);
    var t := Trap(EMPTY_TAKEN.(refs := 0, used := false), [0], [1], true);
    assert s2.buffers == t.buffers;
    assert s2.groups[1].usedList == [0] && s2.groups[1].unusedList == [1] && s2.groups[1] == t.groups[1];
    assert s2.groups == t.groups;
  }

  /** The run is legal, and the put of the marked buffer, the last one held, breaks. */
  lemma EmptyBufferBreaks()
    ensures LegalRun(EMPTY, TRAP_RUN) && Breaks(After(EMPTY, TRAP_RUN), RefDec(0))
  {
    hide Next, Legal;
    TrapSet();
    TrapShut();
    var t := Trap(EMPTY_TAKEN.(refs := 0, used := false), [0], [1], true);
    TrapCloses(t);
    SixSteps(EMPTY, TRAP_RUN);
  }

  lemma TrapCloses(t: State)
    requires t == Trap(EMPTY_TAKEN.(refs := 0, used := false), [0], [1], true)
    ensures Breaks(t, RefDec(0))
  {
    assert Without([0], 0) == [];
  }

  lemma SixSteps(s: State, cs: seq<Call>)
    requires |cs| == 6
    requires Legal(s, cs[0]) && var s1 := Next(s, cs[0]); Legal(s1, cs[1]) && var s2 := Next(s1, cs[1]);
             Legal(s2, cs[2]) && var s3 := Next(s2, cs[2]); Legal(s3, cs[3]) && var s4 := Next(s3, cs[3]);
             Legal(s4, cs[4]) && var s5 := Next(s4, cs[4]); Legal(s5, cs[5])
    ensures LegalRun(s, cs)
    ensures var s3 := Next(Next(Next(s, cs[0]), cs[1]), cs[2]);
            After(s, cs) == Next(Next(Next(s3, cs[3]), cs[4]), cs[5])
  {
    hide Next, Legal;
    var s1 := Next(s, cs[0]);
    var s2 := Next(s1, cs[1]);
    var s3 := Next(s2, cs[2]);
    var s4 := Next(s3, cs[3]);
    var s5 := Next(s4, cs[4]);
    var s6 := Next(s5, cs[5]);
    assert cs[6..] == [] && LegalRun(s6, cs[6..]) && After(s6, cs[6..]) == s6;
    assert cs[5..][1..] == cs[6..] && LegalRun(s5, cs[5..]) && After(s5, cs[5..]) == s6;
    assert cs[4..][1..] == cs[5..] && LegalRun(s4, cs[4..]) && After(s4, cs[4..]) == s6;
    assert cs[3..][1..] == cs[4..] && LegalRun(s3, cs[3..]) && After(s3, cs[3..]) == s6;
    assert cs[2..][1..] == cs[3..] && LegalRun(s2, cs[2..]) && After(s2, cs[2..]) == s6;
    assert cs[1..][1..] == cs[2..] && LegalRun(s1, cs[1..]) && After(s1, cs[1..]) == s6;
  }

  // ----- totals

  /** The bytes of the internal groups fit the 32-bit total. */
  ghost predicate InRange(s: State) {
    Internal(s.groups) < LIMIT
  }

  /** The total is exact, and the maximum is behind no total. */
  ghost predicate TotalsOk(s: State) {
    s.total == Internal(s.groups) && s.total <= s.peak
  }

  function Max(a: nat, b: nat): nat {
    if a > b then a else b
  }

  /** One call, from and to totals that fit: the maximum follows the total. */
  lemma TotalsStep(s: State, c: Call)
    requires Inv(s) && Legal(s, c) && InRange(s) && InRange(Next(s, c)) && TotalsOk(s)
    ensures TotalsOk(Next(s, c)) && Next(s, c).peak == Max(s.peak, Next(s, c).total)
  {
    hide Inv, Next, Legal;
    NextInv(s, c);
    InternalNat(s);
    InternalNat(Next(s, c));
    PeakStep(s, c);
  }

  lemma InternalNat(s: State)
    requires Inv(s)
    ensures Internal(s.groups) >= 0 && s.total == Internal(s.groups) % LIMIT
  {
    hide GroupOk, Home;
    forall i | i in s.groups ensures Share(s.groups[i]) >= 0 {
      UsageNat(s, i);
    }
    SharesNat(s.groups);
  }

  lemma {:induction false} SharesNat(gs: map<nat, Group>)
    requires forall i :: i in gs ==> Share(gs[i]) >= 0
    ensures Internal(gs) >= 0
    decreases |gs|
  {
    if gs != map[] {
      var i :| i in gs && Internal(gs) == Share(gs[i]) + Internal(gs - {i});
      SharesNat(gs - {i});
    }
  }

  /** Either nothing was added and the maximum is untouched, or it follows the new total. */
  lemma PeakStep(s: State, c: Call)
    requires Inv(s) && Legal(s, c)
    ensures var t := Next(s, c);
            (t.peak == s.peak && Internal(t.groups) <= Internal(s.groups)) || t.peak == Max(s.peak, t.total)
  {
    hide GroupOk, Home, IdsOk, PutGroup, ClearGroup, GetBuffer, IdGiven, Release, Internal, Create, Reuse, Take;
    match c
    case GroupGet(internal, kind, forgets, misc, id) => GroupGetInv(s, internal, kind, forgets, misc, id);
    case GroupPut(i) => PutGroupInv(s, i);
    case GroupClear(i) => ClearGroupInv(s, i);
    case LimitConfig(i, size, count) => FlagBooks(s, i, s.groups[i].(limitSize := size, limitCount := count));
    case Import(i, _, size, take, _) => CreateBooks(s, i, size, take);
    case Get(i, size, alloc) => GetPeak(s, i, size, alloc);
    case RefInc(b) => if !s.buffers[b].used { TakeBooks(s, b); TakePeak(s, b); }
    case RefDec(b) => DecPeak(s, b);
  }

  lemma TakePeak(s: State, b: nat)
    requires b in s.buffers && s.buffers[b].group in s.groups
    ensures Take(s, b).peak == s.peak && (s.buffers[b].refs > 0 ==> Reuse(Dropped(s, b), b).peak == s.peak)
  {
  }

  lemma DecPeak(s: State, b: nat)
    requires Inv(s) && b in s.buffers && s.buffers[b].group in s.groups && !Breaks(s, RefDec(b))
    ensures var t := DecRef(s, b); t.peak == s.peak && Internal(t.groups) <= Internal(s.groups)
  {
    hide GroupOk, Home, Internal, IdsOk, Reuse, Release;
    KnownBuffer(s, b);
    if s.buffers[b].refs == 1 {
      if Reusable(s, b) {
        ReuseBooks(s, b);
        TakePeak(s, b);
      } else {
        FreeDropped(s, b);
        ReleaseInv(s, b);
      }
    }
  }

  lemma GetPeak(s: State, i: nat, size: nat, alloc: bool)
    requires Inv(s) && i in s.groups && !s.groups[i].orphan
    ensures var t := GetBuffer(s, i, size, alloc).0;
            (t.peak == s.peak && Internal(t.groups) <= Internal(s.groups)) || t.peak == Max(s.peak, t.total)
  {
    hide GroupOk, Home, Internal, IdsOk, Search, Create;
    WaitingSelf(s, i);
    SearchInv(s, i, s.groups[i].unusedList, size);
    var (u, f) := Found(s, i, size);
    if i in u.groups { CreateBooks(u, i, size, true); }
  }

  ghost predicate AllInRange(s: State, cs: seq<Call>)
    requires LegalRun(s, cs)
    decreases |cs|
  {
    InRange(s) && (cs != [] ==> AllInRange(Next(s, cs[0]), cs[1..]))
  }

  /** The largest total of the states a run passes. */
  ghost function Highest(s: State, cs: seq<Call>): nat
    requires LegalRun(s, cs)
    decreases |cs|
  {
    if cs == [] then s.total else Max(s.total, Highest(Next(s, cs[0]), cs[1..]))
  }

  /** Over a run the total is the sum over the internal groups, and the maximum its running maximum. */
  lemma {:induction false} TotalsRun(s: State, cs: seq<Call>)
    requires Inv(s) && LegalRun(s, cs) && AllInRange(s, cs) && TotalsOk(s)
    ensures TotalsOk(After(s, cs)) && After(s, cs).peak == Max(s.peak, Highest(s, cs))
    decreases |cs|
  {
    hide Inv, Next, Legal, InRange;
    if cs != [] {
      NextInv(s, cs[0]);
      TotalsStep(s, cs[0]);
      TotalsRun(Next(s, cs[0]), cs[1..]);
    }
  }

  // past 32 bits

  /** The call adds a buffer to an internal group. */
  ghost predicate Adds(s: State, c: Call)
    requires Legal(s, c)
  {
    c.Get? && Next(s, c).made > s.made
  }

  /** The largest total, wrapped or not, at an addition of the run. */
  ghost function HighestAdded(s: State, cs: seq<Call>): nat
    requires LegalRun(s, cs)
    decreases |cs|
  {
    if cs == [] then 0
    else
      var t := Next(s, cs[0]);
      Max(if Adds(s, cs[0]) then t.total else 0, HighestAdded(t, cs[1..]))
  }

  /** Whatever has wrapped, an addition takes the maximum to the new total and no other call changes it. */
  lemma PeakExact(s: State, c: Call)
    requires Inv(s) && Legal(s, c)
    ensures Next(s, c).peak == if Adds(s, c) then Max(s.peak, Next(s, c).total) else s.peak
  {
    hide GroupOk, Home, IdsOk, PutGroup, ClearGroup, GetBuffer, IdGiven, Release, Internal, Reuse, Take;
    match c
    case GroupGet(_, _, _, _, _) =>
    case GroupPut(i) => PutGroupInv(s, i);
    case GroupClear(i) => ClearGroupInv(s, i);
    case LimitConfig(_, _, _) =>
    case Import(i, _, size, take, _) =>
    case Get(i, size, alloc) => GetPeakExact(s, i, size, alloc);
    case RefInc(b) => TakePeak(s, b);
    case RefDec(b) => DecPeak(s, b);
  }

  lemma GetPeakExact(s: State, i: nat, size: nat, alloc: bool)
    requires Inv(s) && i in s.groups && !s.groups[i].orphan
    ensures var t := GetBuffer(s, i, size, alloc).0; t.peak == if t.made > s.made then Max(s.peak, t.total) else s.peak
  {
    hide GroupOk, Home, Internal, IdsOk, Search;
    WaitingSelf(s, i);
    SearchInv(s, i, s.groups[i].unusedList, size);
  }

  /**
   Over every run the total is the sum over the internal groups, wrapped at 32 bits,
   and the maximum is the largest such total at an addition.
   */
  lemma {:induction false} PeakRun(s: State, cs: seq<Call>)
    requires Inv(s) && LegalRun(s, cs)
    ensures var t := After(s, cs); t.total == Internal(t.groups) % LIMIT && t.peak == Max(s.peak, HighestAdded(s, cs))
    decreases |cs|
  {
    hide Next, Legal, Adds;
    if cs != [] {
      NextInv(s, cs[0]);
      PeakExact(s, cs[0]);
      PeakRun(Next(s, cs[0]), cs[1..]);
    }
  }
}
