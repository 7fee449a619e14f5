/** What each step does to the page tables, entry by entry, flags included. */
module CowEntries {
  import opened Prelude
  import opened PagePool
  import opened RefCounts
  import opened CowModel
  import opened CowSharing
  import opened CowRuns

  /** No entry of any table differs, except those for `va` in space s. */
  ghost predicate OnlyAt(st': State, st: State, s: int, va: int) {
    && st'.spaces.Keys == st.spaces.Keys && s in st.spaces
    && (forall u :: u in st.spaces && u != s ==> st'.spaces[u] == st.spaces[u])
    && st'.spaces[s] - {va} == st.spaces[s] - {va}
  }

  /** What the frames other than f hold is as it was. */
  ghost predicate ContentsElsewhere(st': State, st: State, f: nat) {
    forall g: nat :: g != f ==> st'.content(g) == st.content(g)
  }

  /** The page shows a frame that was free, with the contents of the old one. */
  ghost predicate Moved(st': State, st: State, s: int, va: int)
    requires Mapped(st, s, va) && Mapped(st', s, va)
  {
    var n := st'.spaces[s][va].frame;
    && n in st.pool.free && st'.pool.free == st.pool.free - {n} && st'.content(n) == st.content(st.spaces[s][va].frame)
    && ContentsElsewhere(st', st, n) && CountOf(st', s, n) == 1
  }

  /** The page shows the frame it did, and the books are as they were. */
  ghost predicate Stayed(st': State, st: State, s: int, va: int)
    requires Mapped(st, s, va) && Mapped(st', s, va)
  {
    && st'.spaces[s][va].frame == st.spaces[s][va].frame && st'.pool == st.pool && st'.refs == st.refs
    && st'.tracked == st.tracked && st'.content == st.content
  }

  lemma CopyMoves(st: State, s: int, va: int)
    requires Mapped(st, s, va) && st.pool.free != {}
    requires forall n :: n in st.pool.free ==> n != st.spaces[s][va].frame && n !in st.tracked[s]
    ensures var st' := CopyOnFault(st, s, va);
            && OnlyAt(st', st, s, va) && Mapped(st', s, va) && st'.spaces[s][va].writable && Moved(st', st, s, va)
  {
  }

  lemma UpgradeStays(st: State, s: int, va: int)
    requires Mapped(st, s, va)
    ensures var st' := Upgrade(st, s, va);
            && OnlyAt(st', st, s, va) && Mapped(st', s, va) && st'.spaces[s][va].writable && Stayed(st', st, s, va)
  {
  }

  lemma FreeIsNotListed(st: State, s: int, va: int)
    requires Inv(st, false) && Mapped(st, s, va)
    ensures forall n :: n in st.pool.free ==> n != st.spaces[s][va].frame && n !in st.tracked[s]
  {
    forall n | n in st.pool.free
      ensures n != st.spaces[s][va].frame && n !in st.tracked[s]
    {
      assert Fits(st, n);
      FreeIsUnshared(st, n);
    }
  }

  /**
   A write fault lets the process write afterwards exactly if the frame is counted and another one is
   free, or the page lies in a lazy region. In the first case the page has a frame that was free, with
   the same contents; otherwise it keeps its frame. No other entry changes.
   */
  lemma FaultAnswered(st: State, s: int, va: int, lazy: bool, data: Page)
    requires Inv(st, false) && Enabled(st, WriteFault(s, va, lazy))
    ensures var st' := Next(st, WriteFault(s, va, lazy));
            var copied := st.spaces[s][va].frame in st.refs && st.pool.free != {};
            && OnlyAt(st', st, s, va) && Mapped(st', s, va)
            && (Enabled(st', Write(s, va, data)) <==> copied || lazy)
            && (if copied then Moved(st', st, s, va) else Stayed(st', st, s, va))
  {
    FreeIsNotListed(st, s, va);
    if st.spaces[s][va].frame in st.refs && st.pool.free != {} {
      CopyMoves(st, s, va);
    } else if lazy {
      UpgradeStays(st, s, va);
    }
  }

  /**
   A page that is filled is mapped exactly if a frame was free: in such a frame, with the data and the
   flag that were asked for. No other entry changes.
   */
  lemma FillAnswered(st: State, s: int, va: int, data: Page, writable: bool)
    requires Inv(st, false) && Enabled(st, MapFresh(s, va, data, writable))
    ensures var st' := Next(st, MapFresh(s, va, data, writable));
            && OnlyAt(st', st, s, va) && (va in st'.spaces[s] <==> st.pool.free != {})
            && st'.refs == st.refs
            && (va in st'.spaces[s] ==>
                  var n := st'.spaces[s][va].frame;
                  && n in st.pool.free && st'.pool.free == st.pool.free - {n}
                  && st'.spaces[s][va].writable == writable && st'.content(n) == data
                  && ContentsElsewhere(st', st, n) && CountOf(st', s, n) == 1)
  {
    if st.pool.free != {} {
      var n := AllocOne(st.pool).1.value;
      FreeIsUnshared(st, n);
      assert Fits(st, n);
    }
  }

  /** A table in which the listed pages have become read-only. */
  ghost predicate Lowered(low: Table, t: Table, listed: set<int>) {
    && low.Keys == t.Keys
    && forall va :: va in t ==> low[va] == if va in listed then Pte(t[va].frame, false) else t[va]
  }

  /** A table with the listed pages of another one, all read-only. */
  ghost predicate Shared(kid: Table, t: Table, listed: set<int>) {
    && kid.Keys == listed * t.Keys
    && forall va :: va in kid ==> kid[va] == Pte(t[va].frame, false)
  }

  lemma DemoteLowers(t: Table, listed: set<int>)
    ensures Lowered(Demote(t, listed), t, listed)
    ensures Shared(Restrict(Demote(t, listed), listed), t, listed)
  {
  }

  /** The tables after a fork: the child has the listed pages, and they are read-only on both sides. */
  ghost predicate TablesForked(after: map<int, Table>, before: map<int, Table>, p: int, c: int, listed: set<int>) {
    && p in before && after.Keys == before.Keys + {c}
    && (forall u :: u in before && u != p ==> after[u] == before[u])
    && Lowered(after[p], before[p], listed) && Shared(after[c], before[p], listed)
  }

  lemma ForkTablesAre(after: map<int, Table>, before: map<int, Table>, p: int, c: int, listed: set<int>)
    requires p in before && c !in before
    requires var low := Demote(before[p], listed); after == before[p := low][c := Restrict(low, listed)]
    ensures TablesForked(after, before, p, c, listed)
  {
    DemoteLowers(before[p], listed);
  }

  /** A listed page is counted as often as it is listed, in its counter and on the list of the child. */
  ghost predicate PageCounted(st': State, st: State, p: int, c: int, listed: map<int, nat>, va: int)
    requires p in st.spaces && va in st.spaces[p] && va in listed
  {
    var f := st.spaces[p][va].frame;
    CountOf(st', c, f) == listed[va] && f in st'.refs && st'.refs[f] == Owners(st.refs, f) + listed[va]
  }

  lemma PageCountedBy(st: State, st': State, p: int, c: int, listed: map<int, nat>, va: int, more: map<nat, nat>)
    requires p in st.spaces && va in st.spaces[p] && va in listed && listed[va] >= 1
    requires Owners(st.refs, st.spaces[p][va].frame) + listed[va] <= REF_LIMIT
    requires st.spaces[p][va].frame in more && more[st.spaces[p][va].frame] == listed[va]
    requires st'.refs == RefIncBy(st.refs, more) && c in st'.tracked && st'.tracked[c] == more
    ensures PageCounted(st', st, p, c, listed, va)
  {
  }

  lemma ForkCountsAre(st: State, st': State, p: int, c: int, listed: map<int, nat>, va: int)
    requires p in st.spaces && va in listed && listed.Keys <= st.spaces[p].Keys && Injective(st.spaces[p])
    requires listed[va] >= 1 && Owners(st.refs, st.spaces[p][va].frame) + listed[va] <= REF_LIMIT
    requires var more := Listings(Demote(st.spaces[p], listed.Keys), listed);
             st'.refs == RefIncBy(st.refs, more) && c in st'.tracked && st'.tracked[c] == more
    ensures PageCounted(st', st, p, c, listed, va)
  {
    FramesOfDemoted(st.spaces[p], listed.Keys);
    ListedAs(Demote(st.spaces[p], listed.Keys), listed, va);
    PageCountedBy(st, st', p, c, listed, va, Listings(Demote(st.spaces[p], listed.Keys), listed));
  }

  /**
   A fork gives the child exactly the listed pages, in the same frames and read-only. In the parent the
   listed pages become read-only and all others stay. No frame is allocated or written.
   */
  lemma ForkAnswered(st: State, st': State, p: int, c: int, listed: map<int, nat>)
    requires Enabled(st, Fork(p, c, listed)) && st' == Next(st, Fork(p, c, listed))
    ensures TablesForked(st'.spaces, st.spaces, p, c, listed.Keys)
    ensures st'.pool == st.pool && st'.content == st.content && st'.kernel == st.kernel && st'.retired == st.retired
    ensures c in st'.tracked && st'.tracked == st.tracked[c := st'.tracked[c]]
  {
    ForkTablesAre(st'.spaces, st.spaces, p, c, listed.Keys);
  }

  /** Each listed page is counted as often as it is listed, in its counter and on the child's list. */
  lemma ForkCounted(st: State, p: int, c: int, listed: map<int, nat>, va: int)
    requires Inv(st, false) && Enabled(st, Fork(p, c, listed)) && va in listed
    ensures PageCounted(Next(st, Fork(p, c, listed)), st, p, c, listed, va)
  {
    assert TableOk(st.refs, st.spaces[p], false);
    ForkCountsAre(st, ForkNext(st, p, c, listed), p, c, listed, va);
  }

  lemma RemoveTakesPage(st: State, s: int, va: int)
    requires Mapped(st, s, va) && ListOk(st.tracked[s]) && CountOf(st, s, st.spaces[s][va].frame) >= 1
    requires st.spaces[s][va].frame in st.refs ==> st.refs[st.spaces[s][va].frame] >= 1
    ensures var st', f := Remove(st, s, va), st.spaces[s][va].frame;
            && OnlyAt(st', st, s, va) && va !in st'.spaces[s] && st'.content == st.content
            && CountOf(st', s, f) == CountOf(st, s, f) - 1
            && (f < st.pool.total && f !in st.pool.free ==>
                  (f in st'.pool.free <==> CountOf(st, s, f) == 1 && Owners(st.refs, f) == 1))
  {
  }

  /**
   A page that is unmapped or evicted is gone, and no other entry changes; its frame is free afterwards
   exactly if the list had it once and it had one owner.
   */
  lemma RemovalAnswered(st: State, s: int, va: int, step: Step)
    requires Inv(st, false) && Enabled(st, step) && (step == Evict(s, va) || step == Unmap(s, va))
    ensures var st', f := Next(st, step), st.spaces[s][va].frame;
            && OnlyAt(st', st, s, va) && va !in st'.spaces[s] && st'.content == st.content
            && CountOf(st', s, f) == CountOf(st, s, f) - 1
            && (f in st'.pool.free <==> CountOf(st, s, f) == 1 && Owners(st.refs, f) == 1)
  {
    var f := st.spaces[s][va].frame;
    assert Fits(st, f);
    MappedIsTracked(st, s, va);
    RemoveTakesPage(st, s, va);
  }

  /** A space that goes away gives back a frame of its list: the page that shows it goes, and no other. */
  lemma DropAnswered(st: State, s: int, f: nat)
    requires Inv(st, false) && Enabled(st, Drop(s, f))
    ensures var st' := Next(st, Drop(s, f));
            && st'.spaces.Keys == st.spaces.Keys && st'.content == st.content
            && (forall u :: u in st.spaces && u != s ==> st'.spaces[u] == st.spaces[u])
            && (forall va :: va in st'.spaces[s] <==> va in st.spaces[s] && st.spaces[s][va].frame != f)
            && (forall va :: va in st'.spaces[s] ==> st'.spaces[s][va] == st.spaces[s][va])
            && CountOf(st', s, f) == 0
            && (f in st'.pool.free <==> Owners(st.refs, f) == 1)
  {
    assert Fits(st, f);
  }

  lemma NothingLeft(st: State, s: int)
    requires Inv(st, false) && s in st.spaces && st.tracked[s] == map[]
    ensures st.spaces[s] == map[]
  {
    forall va | va in st.spaces[s]
      ensures false
    {
      assert Fits(st, st.spaces[s][va].frame);
      MappedIsTracked(st, s, va);
    }
  }

  lemma DropShortens(st: State, s: int, f: nat)
    requires Inv(st, false) && Enabled(st, Drop(s, f))
    ensures var next := Next(st, Drop(s, f));
            && Inv(next, false) && s in next.spaces && |next.tracked[s]| < |st.tracked[s]|
            && next.spaces - {s} == st.spaces - {s}
  {
    StepKeepsInv(st, Drop(s, f), false);
    DropLeaves(st, s, f);
  }

  lemma DropLeaves(st: State, s: int, f: nat)
    requires Enabled(st, Drop(s, f))
    ensures var next := Next(st, Drop(s, f));
            && s in next.spaces && s in next.tracked && |next.tracked[s]| < |st.tracked[s]|
            && next.spaces - {s} == st.spaces - {s}
  {
    assert st.tracked[s].Keys == (st.tracked[s] - {f}).Keys + {f};
  }

  lemma RunCons(st: State, step: Step, next: State, rest: seq<Step>)
    requires Enabled(st, step) && next == Next(st, step) && Feasible(next, rest)
    ensures Feasible(st, [step] + rest) && After(st, [step] + rest) == After(next, rest)
  {
    assert ([step] + rest)[1..] == rest;
  }

  lemma ReapRemoves(st: State, s: int)
    requires Enabled(st, Reap(s))
    ensures Feasible(st, [Reap(s)]) && After(st, [Reap(s)]).spaces == st.spaces - {s}
  {
    RunCons(st, Reap(s), Next(st, Reap(s)), []);
    assert [Reap(s)] + [] == [Reap(s)];
  }

  /**
   From every state a process can go away: it gives the frames of its list back one by one, until no
   page is mapped and nothing is listed. The tables of the others do not change.
   */
  lemma {:induction false} ExitCompletes(st: State, s: int) returns (steps: seq<Step>)
    requires Inv(st, false) && s in st.spaces
    ensures Feasible(st, steps) && After(st, steps).spaces == st.spaces - {s}
    decreases |st.tracked[s]|
  {
    if st.tracked[s] == map[] {
      NothingLeft(st, s);
      ReapRemoves(st, s);
      steps := [Reap(s)];
    } else {
      var f :| f in st.tracked[s];
      DropShortens(st, s, f);
      var rest := ExitCompletes(Next(st, Drop(s, f)), s);
      RunCons(st, Drop(s, f), Next(st, Drop(s, f)), rest);
      steps := [Drop(s, f)] + rest;
    }
  }

  /** A write changes what the page's frame holds, and nothing else. */
  lemma WriteAnswered(st: State, s: int, va: int, data: Page)
    requires Enabled(st, Write(s, va, data))
    ensures var st' := Next(st, Write(s, va, data));
            && st'.(content := st.content) == st && st'.content(st.spaces[s][va].frame) == data
            && ContentsElsewhere(st', st, st.spaces[s][va].frame)
  {
  }

  /** A run of `count` free frames goes from the pool to the kernel. */
  ghost predicate KernelTook(st': State, st: State, count: nat, at: nat) {
    && IsRun(st.pool.free, at, count) && st'.kernel == st.kernel + Interval(at, at + count)
    && st'.pool.free == st.pool.free - Interval(at, at + count)
  }

  /** The kernel takes a run of free frames exactly if there is one. */
  lemma KernelTakeAnswered(st: State, count: nat)
    requires count > 0
    ensures var st' := Next(st, KernelTake(count));
            && st'.spaces == st.spaces && st'.tracked == st.tracked && st'.refs == st.refs && st'.content == st.content
            && ((exists at: nat :: IsRun(st.pool.free, at, count)) ==> exists at: nat :: KernelTook(st', st, count, at))
            && ((forall at: nat :: !IsRun(st.pool.free, at, count)) ==> st' == st)
  {
    RunServedIffExists(st.pool, count);
    var r := AllocRun(st.pool, count);
    if r.1.Some? {
      assert KernelTook(Next(st, KernelTake(count)), st, count, r.1.value);
    }
  }

  /** A frame that the kernel gives back is free. */
  lemma KernelGiveAnswered(st: State, f: nat)
    requires Inv(st, false) && f in st.kernel
    ensures var st' := Next(st, KernelGive(f));
            && st'.spaces == st.spaces && st'.tracked == st.tracked && st'.refs == st.refs && st'.content == st.content
            && st'.kernel == st.kernel - {f} && st'.pool.free == st.pool.free + {f}
  {
    assert Fits(st, f);
  }
}
