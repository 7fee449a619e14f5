/** When the counters are the numbers of sharers: exactly if no fork lists a page twice. */
module CowCounting {
  import opened Prelude
  import opened PagePool
  import opened RefCounts
  import opened CowModel
  import opened CowSharing
  import opened CowRuns

  /** The counter of a frame is the number of address spaces that map it; no counter, at most one. */
  ghost predicate CounterExact(st: State, f: nat) {
    if f in st.refs then st.refs[f] == |Sharers(st.spaces, f)| else |Sharers(st.spaces, f)| <= 1
  }

  ghost predicate CountersExact(st: State) {
    forall f: nat :: CounterExact(st, f)
  }

  /** The step is not a fork that lists a page twice. */
  predicate ListsOnce(step: Step) {
    step.Fork? ==> forall va :: va in step.listed ==> step.listed[va] == 1
  }

  // ---------------------------------------------------------------- forks that list pages once

  /** The space remembers each frame that it maps once, and no other. */
  ghost predicate PlainSpace(t: Table, l: map<nat, nat>) {
    l.Keys == Frames(t) && forall f :: f in l ==> l[f] == 1
  }

  ghost predicate PlainSpaces(spaces: map<int, Table>, tracked: map<int, map<nat, nat>>) {
    forall s :: s in spaces ==> s in tracked && PlainSpace(spaces[s], tracked[s])
  }

  ghost predicate NoSurplus(surplus: map<nat, nat>) {
    forall f :: f in surplus ==> surplus[f] == 0
  }

  ghost predicate Plain(st: State) {
    PlainSpaces(st.spaces, st.tracked) && NoSurplus(st.surplus)
  }

  lemma PlainReplaced(st: State, st': State, s: int, t: Table, l: map<nat, nat>)
    requires PlainSpaces(st.spaces, st.tracked) && Replaces(st', st, s, t, l) && PlainSpace(t, l)
    ensures PlainSpaces(st'.spaces, st'.tracked)
  {
    forall u | u in st'.spaces
      ensures u in st'.tracked && PlainSpace(st'.spaces[u], st'.tracked[u])
    {
      assert u != s ==> PlainSpace(st.spaces[u], st.tracked[u]);
    }
  }

  lemma PlainMapFresh(st: State, step: Step)
    requires Inv(st, false) && Plain(st) && step.MapFresh? && Enabled(st, step)
    ensures Plain(Next(st, step))
  {
    var page := AllocOne(st.pool).1;
    if page.Some? {
      var s, n, t := step.space, page.value, st.spaces[step.space];
      assert Fits(st, n) && TableOk(st.refs, t, false) && PlainSpace(t, st.tracked[s]);
      FreeIsUnshared(st, n);
      FramesOfFresh(t, step.va, Pte(n, step.writable));
      PlainReplaced(st, Next(st, step), s, t[step.va := Pte(n, step.writable)], Track(st.tracked[s], n));
    }
  }

  lemma PlainRemove(st: State, s: int, va: int)
    requires Inv(st, false) && Plain(st) && Mapped(st, s, va)
    ensures Plain(Remove(st, s, va))
  {
    var t, l := st.spaces[s], st.tracked[s];
    assert TableOk(st.refs, t, false) && PlainSpace(t, l);
    FramesOfRemoved(t, va);
    RemoveReplaces(st, s, va);
    PlainReplaced(st, Remove(st, s, va), s, t - {va}, Forget(l, t[va].frame));
  }

  lemma PlainDrop(st: State, s: int, f: nat)
    requires Inv(st, false) && Plain(st) && Enabled(st, Drop(s, f))
    ensures Plain(Next(st, Drop(s, f)))
  {
    var t, l := st.spaces[s], st.tracked[s];
    assert TableOk(st.refs, t, false) && PlainSpace(t, l);
    FramesOfWithout(t, f);
    PlainReplaced(st, Next(st, Drop(s, f)), s, Without(t, f), l - {f});
  }

  lemma CopiedSpace(t: Table, l: map<nat, nat>, va: int, n: nat)
    requires PlainSpace(t, l) && Injective(t) && va in t && n !in Frames(t)
    ensures PlainSpace(t[va := Pte(n, true)], Forget(Track(l, n), t[va].frame))
  {
    FramesOfMoved(t, va, Pte(n, true));
  }

  lemma PlainCopy(st: State, s: int, va: int)
    requires Inv(st, false) && Plain(st) && Mapped(st, s, va)
    ensures Plain(CopyOnFault(st, s, va))
  {
    var page := AllocOne(st.pool).1;
    if page.Some? {
      var n, t, l := page.value, st.spaces[s], st.tracked[s];
      assert Fits(st, n) && TableOk(st.refs, t, false) && PlainSpace(t, l);
      FreeIsUnshared(st, n);
      CopiedSpace(t, l, va, n);
      CopyIs(st, s, va, n);
      PlainReplaced(st, CopyOnFault(st, s, va), s, t[va := Pte(n, true)], Forget(Track(l, n), t[va].frame));
    }
  }

  lemma PlainUpgrade(st: State, s: int, va: int)
    requires Inv(st, false) && Plain(st) && Mapped(st, s, va)
    ensures Plain(Upgrade(st, s, va))
  {
    var t := st.spaces[s];
    var p := t[va].(writable := true);
    assert TableOk(st.refs, t, false) && PlainSpace(t, st.tracked[s]);
    FramesOfMoved(t, va, p);
    assert st.tracked[s := st.tracked[s]] == st.tracked;
    PlainReplaced(st, Upgrade(st, s, va), s, t[va := p], st.tracked[s]);
  }

  lemma OnceListed(t: Table, listed: map<int, nat>, f: nat)
    requires f in Listings(t, listed) && forall va :: va in listed ==> listed[va] == 1
    ensures Listings(t, listed)[f] == 1
  {
    ListingsAt(t, listed, f);
  }

  lemma OnceSurplus(st: State, more: map<nat, nat>)
    requires NoSurplus(st.surplus) && forall f :: f in more ==> more[f] == 1
    ensures NoSurplus(MoreSurplus(st, more))
  {
  }

  lemma PlainForked(st: State, st': State, p: int, c: int, low: Table, kid: Table, more: map<nat, nat>)
    requires Plain(st) && p in st.spaces && Frames(low) == Frames(st.spaces[p]) && PlainSpace(kid, more)
    requires Replaces(st', st.(spaces := st.spaces[p := low]), c, kid, more) && st'.surplus == MoreSurplus(st, more)
    ensures Plain(st')
  {
    var mid := st.(spaces := st.spaces[p := low]);
    assert PlainSpace(st.spaces[p], st.tracked[p]);
    assert st.tracked[p := st.tracked[p]] == st.tracked;
    PlainReplaced(st, mid, p, low, st.tracked[p]);
    PlainReplaced(mid, st', c, kid, more);
    OnceSurplus(st, more);
  }

  lemma PlainFork(st: State, p: int, c: int, listed: map<int, nat>)
    requires Inv(st, false) && Plain(st) && Enabled(st, Fork(p, c, listed)) && ListsOnce(Fork(p, c, listed))
    ensures Plain(ForkNext(st, p, c, listed))
  {
    var low := Demote(st.spaces[p], listed.Keys);
    var more := Listings(low, listed);
    assert TableOk(st.refs, st.spaces[p], false);
    FramesOfDemoted(st.spaces[p], listed.Keys);
    forall f | f in more
      ensures more[f] == 1
    {
      OnceListed(low, listed, f);
    }
    ForkMay(st, p, c, listed);
    ForkIs(st, p, c, listed);
    PlainForked(st, ForkNext(st, p, c, listed), p, c, low, Restrict(low, listed.Keys), more);
  }

  lemma PlainSpawn(st: State, s: int)
    requires Plain(st) && Enabled(st, Spawn(s))
    ensures Plain(Next(st, Spawn(s)))
  {
    var none: Table := map[];
    assert Frames(none) == {};
    PlainReplaced(st, Next(st, Spawn(s)), s, none, map[]);
  }

  lemma PlainStep(st: State, step: Step)
    requires Inv(st, false) && Plain(st) && Enabled(st, step) && ListsOnce(step)
    ensures Plain(Next(st, step))
  {
    match step
    case Spawn(s) => PlainSpawn(st, s);
    case MapFresh(_, _, _, _) => PlainMapFresh(st, step);
    case Fork(p, c, listed) => PlainFork(st, p, c, listed);
    case Write(_, _, _) =>
    case WriteFault(s, va, lazy) => PlainCopy(st, s, va); PlainUpgrade(st, s, va);
    case Unmap(s, va) => PlainRemove(st, s, va);
    case Evict(s, va) => PlainRemove(st, s, va);
    case Drop(s, f) => PlainDrop(st, s, f);
    case Reap(_) =>
    case KernelTake(_) =>
    case KernelGive(_) =>
  }

  lemma PlainIsExact(st: State)
    requires Inv(st, false) && Plain(st)
    ensures CountersExact(st)
  {
    forall f: nat
      ensures CounterExact(st, f)
    {
      assert Fits(st, f);
      forall s
        ensures s in Sharers(st.spaces, f) <==> s in Holders(st.tracked, f)
      {
        assert s in st.spaces ==> PlainSpace(st.spaces[s], st.tracked[s]);
      }
      assert Sharers(st.spaces, f) == Holders(st.tracked, f);
    }
  }

  // ---------------------------------------------------------------- forks that list a page twice

  /** A fork that lists a page twice leaves its counter above the number of sharers. */
  lemma TwiceListedIsInexact(st: State, p: int, c: int, listed: map<int, nat>, va: int)
    requires Inv(st, false) && Enabled(st, Fork(p, c, listed)) && va in listed && listed[va] >= 2
    ensures var st', f := Next(st, Fork(p, c, listed)), st.spaces[p][va].frame;
            && Surplus(st', f) == Surplus(st, f) + listed[va] - 1
            && f in st'.refs && st'.refs[f] > |Sharers(st'.spaces, f)|
  {
    var st' := Next(st, Fork(p, c, listed));
    var t, f := st.spaces[p], st.spaces[p][va].frame;
    var low := Demote(t, listed.Keys);
    assert TableOk(st.refs, t, false);
    FramesOfDemoted(t, listed.Keys);
    ListedAs(low, listed, va);
    SurplusAfter(st, st', Listings(low, listed), f);
    StepKeepsInv(st, Fork(p, c, listed), false);
    assert Fits(st', f);
    SubsetSize(Sharers(st'.spaces, f), Holders(st'.tracked, f));
  }

  // ---------------------------------------------------------------- over runs

  /** The counters are exact at every point of the run. */
  ghost predicate ExactThroughout(st: State, steps: seq<Step>)
    requires Feasible(st, steps)
    decreases |steps|
  {
    CountersExact(st) && (steps == [] || ExactThroughout(Next(st, steps[0]), steps[1..]))
  }

  predicate AllListOnce(steps: seq<Step>) {
    forall i :: 0 <= i < |steps| ==> ListsOnce(steps[i])
  }

  lemma InexactFork(st: State, step: Step)
    requires Inv(st, false) && Enabled(st, step) && !ListsOnce(step)
    ensures !CountersExact(Next(st, step))
  {
    var va :| va in step.listed && step.listed[va] != 1;
    TwiceListedIsInexact(st, step.parent, step.child, step.listed, va);
    assert !CounterExact(Next(st, step), st.spaces[step.parent][va].frame);
  }

  lemma ListOnceCons(steps: seq<Step>)
    requires steps != []
    ensures AllListOnce(steps) <==> ListsOnce(steps[0]) && AllListOnce(steps[1..])
  {
    assert forall i :: 1 <= i < |steps| ==> steps[i] == steps[1..][i - 1];
  }

  lemma {:induction false} ExactRun(st: State, steps: seq<Step>)
    requires Inv(st, false) && Plain(st) && Feasible(st, steps)
    ensures ExactThroughout(st, steps) <==> AllListOnce(steps)
    decreases |steps|
  {
    PlainIsExact(st);
    if steps != [] {
      ListOnceCons(steps);
      if ListsOnce(steps[0]) {
        StepKeepsInv(st, steps[0], false);
        PlainStep(st, steps[0]);
        ExactRun(Next(st, steps[0]), steps[1..]);
      } else {
        InexactFork(st, steps[0]);
      }
    }
  }

  /** In runs from boot the counters always are the numbers of sharers exactly if no fork lists a page twice. */
  lemma CountersExactly(pool: Pool, steps: seq<Step>)
    requires Wf(pool) && Feasible(Boot(pool), steps)
    ensures ExactThroughout(Boot(pool), steps) <==> AllListOnce(steps)
  {
    BootInv(pool, false);
    ExactRun(Boot(pool), steps);
  }

  // ---------------------------------------------------------------- what the ranges of a fork list

  /** The lazily mapped part of every stack. */
  const LAZY_STACK_MAX: nat := 32 * 0x10_0000

  datatype Range = Range(start: int, len: nat)
  {
    predicate Contains(va: int) { start <= va < start + len }
  }

  function Times(ranges: seq<Range>, va: int): nat {
    if ranges == [] then 0 else (if ranges[0].Contains(va) then 1 else 0) + Times(ranges[1..], va)
  }

  /** A fork goes through its ranges one after the other and lists what is mapped in each. */
  function ListedIn(t: Table, ranges: seq<Range>): map<int, nat> {
    map va | va in t && Times(ranges, va) > 0 :: Times(ranges, va)
  }

  lemma {:induction false} TimesAtLeast(ranges: seq<Range>, i: nat, va: int)
    requires i < |ranges| && ranges[i].Contains(va)
    ensures Times(ranges, va) >= 1
  {
    if i > 0 {
      TimesAtLeast(ranges[1..], i - 1, va);
    }
  }

  /** The ranges from the i-th on that contain the address. */
  ghost function RangesWith(ranges: seq<Range>, i: nat, va: int): set<nat> {
    set k: nat | i <= k < |ranges| && ranges[k].start <= va < ranges[k].start + ranges[k].len
  }

  lemma {:induction false} TimesCounts(ranges: seq<Range>, i: nat, va: int)
    requires i <= |ranges|
    ensures Times(ranges[i..], va) == |RangesWith(ranges, i, va)|
    decreases |ranges| - i
  {
    if i < |ranges| {
      TimesCounts(ranges, i + 1, va);
      assert ranges[i..][1..] == ranges[i + 1..] && ranges[i..][0] == ranges[i];
      var rest := RangesWith(ranges, i + 1, va);
      assert RangesWith(ranges, i, va) == if ranges[i].Contains(va) then rest + {i} else rest;
    } else {
      assert RangesWith(ranges, i, va) == {};
    }
  }

  /** A fork lists exactly the mapped pages of its ranges, each as often as there are ranges with it. */
  lemma ListedExactly(t: Table, ranges: seq<Range>, va: int)
    ensures va in ListedIn(t, ranges) <==> va in t && RangesWith(ranges, 0, va) != {}
    ensures va in ListedIn(t, ranges) ==> ListedIn(t, ranges)[va] == |RangesWith(ranges, 0, va)|
  {
    assert ranges[0..] == ranges;
    TimesCounts(ranges, 0, va);
  }

  /**
   Every fork first goes through the stack and later through the lazy regions, of which the stack is
   one: a mapped stack page is listed twice, and the counters are wrong from then on.
   */
  lemma StackIsListedTwice(st: State, p: int, c: int, top: int, size: nat, others: seq<Range>, i: nat, va: int)
    requires Inv(st, false) && p in st.spaces && va in st.spaces[p]
    requires size <= LAZY_STACK_MAX && top - size <= va < top
    requires i < |others| && others[i] == Range(top - LAZY_STACK_MAX, LAZY_STACK_MAX)
    requires Enabled(st, Fork(p, c, ListedIn(st.spaces[p], [Range(top - size, size)] + others)))
    ensures !CountersExact(Next(st, Fork(p, c, ListedIn(st.spaces[p], [Range(top - size, size)] + others))))
  {
    var ranges := [Range(top - size, size)] + others;
    assert ranges[1..] == others;
    TimesAtLeast(others, i, va);
    InexactFork(st, Fork(p, c, ListedIn(st.spaces[p], ranges)));
  }
}
