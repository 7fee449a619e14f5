/**
 Runs of the kernel heap beside all other users of physical memory. Growth and reclaim are taken
 apart wherever the source lets other threads in.
 */
module HeapRuns {
  import opened Prelude
  import opened PagePool
  import opened HeapGrowth

  /**
   `claimed` are the spans whose pages the heap holds: recorded ones (`tracked`), ones that found the
   registry full, and ones already cut out but not yet given back (`returning`). `growing` is the
   span taken by a growth under way, `uncounted` the claimed span it has still to add to the heap
   size. `owed` are spans that were given back, with their bytes still in the heap size; a span can
   be owed twice if it is taken and given back again. `others` are the pages of everybody else.
   */
  datatype World = World(pool: Pool, claimed: set<Span>, tracked: set<Span>, returning: set<Span>,
                         growing: set<Span>, uncounted: set<Span>, owed: seq<Span>, live: set<Block>,
                         seed: nat, heapSize: int, others: set<nat>)

  datatype Step =
    | GrowTake(n: nat)
    | GrowClaim(s: Span)
    | GrowCount(s: Span)
    | GrowRefuse(s: Span)
    | Detach(s: Span)
    | ReturnPages(s: Span)
    | SubtractSize(i: nat)
    | Malloc(b: Block)
    | Free(b: Block)
    | OtherTake(count: nat)
    | OtherGive(page: nat)

  /** The heap's lock is held by a growth from taking pages until they are counted or refused. */
  ghost predicate Unlocked(w: World) {
    w.growing == {} && w.uncounted == {}
  }

  ghost predicate Enabled(w: World, s: Step) {
    match s
    case GrowTake(n) => Unlocked(w)
    case GrowClaim(x) => x in w.growing
    case GrowCount(x) => x in w.uncounted
    case GrowRefuse(x) => x in w.growing
    case Detach(x) => Unlocked(w) && x in w.tracked && AllFree(w.live, x)
    case ReturnPages(x) => x in w.returning
    case SubtractSize(i) => i < |w.owed|
    case Malloc(b) =>
      && Unlocked(w)
      && (exists x :: x in w.claimed - w.returning && Inside(b, x))
      && forall c :: c in w.live ==> b.hi <= c.lo || c.hi <= b.lo
    case Free(b) => Unlocked(w) && b in w.live
    case OtherTake(count) => true
    case OtherGive(page) => page in w.others
  }

  ghost function Next(w: World, s: Step): World {
    match s
    case GrowTake(n) =>
      var r := AllocRun(w.pool, n);
      if r.1.None? then w else w.(pool := r.0, growing := {Span(r.1.value, n)})
    case GrowClaim(x) =>
      w.(growing := w.growing - {x}, claimed := w.claimed + {x}, uncounted := w.uncounted + {x},
         tracked := if |w.tracked| < MAX_CLAIMED_SPANS then w.tracked + {x} else w.tracked)
    case GrowCount(x) => w.(uncounted := w.uncounted - {x}, heapSize := w.heapSize + x.pages * PAGE_SIZE)
    case GrowRefuse(x) => w.(growing := w.growing - {x}, pool := FreeRun(w.pool, x.start, x.pages))
    case Detach(x) => w.(tracked := w.tracked - {x}, returning := w.returning + {x})
    case ReturnPages(x) =>
      w.(returning := w.returning - {x}, claimed := w.claimed - {x}, owed := w.owed + [x],
         pool := FreeRun(w.pool, x.start, x.pages))
    case SubtractSize(i) =>
      if i < |w.owed| then
        w.(owed := w.owed[..i] + w.owed[i + 1..], heapSize := w.heapSize - w.owed[i].pages * PAGE_SIZE)
      else w
    case Malloc(b) => w.(live := w.live + {b})
    case Free(b) => w.(live := w.live - {b})
    case OtherTake(count) =>
      var r := AllocRun(w.pool, count);
      if r.1.None? then w else w.(pool := r.0, others := w.others + PagesOf(Span(r.1.value, count)))
    case OtherGive(page) => w.(pool := FreeOne(w.pool, page).0, others := w.others - {page})
  }

  // ---------------------------------------------------------------- page counts of sets of spans

  ghost function PageCount(spans: set<Span>): int
    decreases spans
  {
    if spans == {} then 0
    else
      var x :| x in spans;
      x.pages + PageCount(spans - {x})
  }

  /** The count does not depend on the order in which spans are picked. */
  lemma {:induction false} PageCountRemove(spans: set<Span>, x: Span)
    requires x in spans
    ensures PageCount(spans) == x.pages + PageCount(spans - {x})
    decreases spans
  {
    var y :| y in spans && PageCount(spans) == y.pages + PageCount(spans - {y});
    if y != x {
      PageCountRemove(spans - {y}, x);
      PageCountRemove(spans - {x}, y);
      assert spans - {y} - {x} == spans - {x} - {y};
    }
  }

  lemma PageCountAdd(spans: set<Span>, x: Span)
    requires x !in spans
    ensures PageCount(spans + {x}) == PageCount(spans) + x.pages
  {
    PageCountRemove(spans + {x}, x);
    assert spans + {x} - {x} == spans;
  }

  lemma PageCountOne(x: Span)
    ensures PageCount({x}) == x.pages
  {
    PageCountRemove({x}, x);
    assert {x} - {x} == {};
  }

  /** Pages of spans that were given back, with repetitions. */
  function OwedPages(owed: seq<Span>): nat
    decreases |owed|
  {
    if owed == [] then 0 else owed[0].pages + OwedPages(owed[1..])
  }

  lemma {:induction false} OwedAt(owed: seq<Span>, i: nat)
    requires i < |owed|
    ensures OwedPages(owed) == owed[i].pages + OwedPages(owed[..i] + owed[i + 1..])
    decreases |owed|
  {
    var rest := owed[..i] + owed[i + 1..];
    if i == 0 {
      assert rest == owed[1..];
    } else {
      OwedAt(owed[1..], i - 1);
      assert rest[0] == owed[0] && rest[1..] == owed[1..][..i - 1] + owed[1..][i..];
    }
  }

  lemma OwedOneMore(owed: seq<Span>, x: Span)
    ensures OwedPages(owed + [x]) == OwedPages(owed) + x.pages
  {
    OwedAt(owed + [x], |owed|);
    assert (owed + [x])[..|owed|] + (owed + [x])[|owed| + 1..] == owed;
  }

  // ---------------------------------------------------------------- the invariant

  /** The spans that hold pages for the heap, in it or on the way in. */
  ghost function Held(w: World): set<Span> {
    w.claimed + w.growing
  }

  ghost predicate SpanFine(w: World, x: Span) {
    x.pages >= 1 && Used(w.pool, x) && forall p :: p in w.others ==> !(x.start <= p < x.start + x.pages)
  }

  /** Spans are allocated, belong to nobody else and share no page. */
  ghost predicate SpansFine(w: World) {
    && (forall x {:trigger SpanFine(w, x)} :: x in Held(w) ==> SpanFine(w, x))
    && (forall x, y :: x in Held(w) && y in Held(w) && x != y ==> HeapGrowth.Apart(x, y))
    && w.claimed !! w.growing && |w.growing| <= 1
    && w.uncounted <= w.claimed - w.returning && |w.uncounted| <= 1 && (w.growing == {} || w.uncounted == {})
    && w.tracked <= w.claimed && w.returning <= w.claimed && w.tracked !! w.returning
    && |w.tracked| <= MAX_CLAIMED_SPANS
  }

  /** Every live allocation lies in a span that is in the heap. */
  ghost predicate Housed(w: World, b: Block) {
    exists x :: x in w.claimed - w.returning && Inside(b, x)
  }

  ghost predicate OthersFine(w: World) {
    forall p :: p in w.others ==> p < w.pool.total && p !in w.pool.free
  }

  /** Free pages, pages of the heap, pages in flight and the pages of others make up all of RAM. */
  ghost predicate Conserved(w: World) {
    |w.pool.free| + PageCount(w.claimed) + PageCount(w.growing) + |w.others| == w.pool.total
  }

  /** The heap size is the seed, the claimed spans that are counted, and the spans that are owed. */
  ghost predicate Sized(w: World) {
    w.heapSize == w.seed + (PageCount(w.claimed) - PageCount(w.uncounted) + OwedPages(w.owed)) * PAGE_SIZE
  }

  ghost predicate Inv(w: World) {
    && Wf(w.pool) && SpansFine(w) && OthersFine(w) && Conserved(w)
    && (forall b {:trigger Housed(w, b)} :: b in w.live ==> Housed(w, b))
    && Sized(w)
  }

  // ---------------------------------------------------------------- steps keep it

  lemma GrowTakeKeeps(w: World, n: nat)
    requires Inv(w) && Enabled(w, GrowTake(n)) && AllocRun(w.pool, n).1.Some?
    ensures Inv(Next(w, GrowTake(n)))
  {
    TakenIsUsed(w.pool, n);
    RunBalance(w.pool, n);
    RunJoins(w, AllocRun(w.pool, n).0, Span(AllocRun(w.pool, n).1.value, n));
  }

  /** A free run can be taken for the heap. */
  lemma RunJoins(w: World, taken: Pool, s: Span)
    requires Inv(w) && Unlocked(w) && s.pages >= 1 && IsRun(w.pool.free, s.start, s.pages)
    requires Wf(taken) && taken.total == w.pool.total && taken.free == w.pool.free - PagesOf(s) && Used(taken, s)
    requires |taken.free| == |w.pool.free| - s.pages
    ensures Inv(w.(pool := taken, growing := {s}))
  {
    var v := w.(pool := taken, growing := {s});
    PageCountOne(s);
    forall x | x in w.claimed
      ensures SpanFine(v, x) && HeapGrowth.Apart(x, s) && x != s
    {
      assert SpanFine(w, x);
      UsedApartFromRun(w.pool, x, s);
      UsedAfterTake(w.pool, taken, x);
    }
    assert SpanFine(v, s) by {
      forall p | p in w.others
        ensures !(s.start <= p < s.start + s.pages)
      {
      }
    }
    HousesKept(w, v);
  }

  lemma TakenIsUsed(p: Pool, n: nat)
    requires Wf(p) && AllocRun(p, n).1.Some?
    ensures Used(AllocRun(p, n).0, Span(AllocRun(p, n).1.value, n)) && AllocRun(p, n).0.total == p.total
    ensures AllocRun(p, n).0.free == p.free - PagesOf(Span(AllocRun(p, n).1.value, n))
  {
    assert AllocRun(p, n).1.value + n - 1 in p.free;
  }

  /** Allocations stay housed while no span leaves the heap. */
  lemma HousesKept(w: World, v: World)
    requires forall b :: b in w.live ==> Housed(w, b)
    requires w.claimed - w.returning <= v.claimed - v.returning && v.live <= w.live
    ensures forall b :: b in v.live ==> Housed(v, b)
  {
    forall b | b in v.live
      ensures Housed(v, b)
    {
      assert Housed(w, b);
    }
  }

  lemma GrowClaimKeeps(w: World, x: Span)
    requires Inv(w) && x in w.growing
    ensures Inv(Next(w, GrowClaim(x)))
  {
    var v := Next(w, GrowClaim(x));
    assert w.growing == {x} && v.growing == {} && v.uncounted == {x} by {
      SubsetSize({x}, w.growing);
    }
    assert Held(v) == Held(w);
    PageCountAdd(w.claimed, x);
    PageCountOne(x);
    forall y | y in Held(v)
      ensures SpanFine(v, y)
    {
      assert SpanFine(w, y);
    }
    HousesKept(w, v);
  }

  lemma GrowCountKeeps(w: World, x: Span)
    requires Inv(w) && x in w.uncounted
    ensures Inv(Next(w, GrowCount(x)))
  {
    var v := Next(w, GrowCount(x));
    assert w.uncounted == {x} && v.uncounted == {} by {
      SubsetSize({x}, w.uncounted);
    }
    PageCountOne(x);
    BookkeepingKeeps(w, v);
  }

  /** Steps that touch only the count keep everything about pages. */
  lemma BookkeepingKeeps(w: World, v: World)
    requires Inv(w) && v == w.(uncounted := v.uncounted, owed := v.owed, heapSize := v.heapSize)
    requires v.uncounted <= w.uncounted && Sized(v)
    ensures Inv(v)
  {
    SubsetSize(v.uncounted, w.uncounted);
    assert Held(v) == Held(w);
    forall y | y in Held(v)
      ensures SpanFine(v, y)
    {
      assert SpanFine(w, y);
    }
    HousesKept(w, v);
  }

  lemma SubtractSizeKeeps(w: World, i: nat)
    requires Inv(w) && i < |w.owed|
    ensures Inv(Next(w, SubtractSize(i)))
  {
    OwedAt(w.owed, i);
    BookkeepingKeeps(w, Next(w, SubtractSize(i)));
  }

  /** A span that leaves goes back to the pool and touches nobody else. */
  lemma GivenSpan(w: World, x: Span, given: Pool)
    requires Inv(w) && x in Held(w) && given == FreeRun(w.pool, x.start, x.pages)
    ensures given.total == w.pool.total && Wf(given) && given.free == w.pool.free + PagesOf(x)
    ensures |given.free| == |w.pool.free| + x.pages
    ensures forall y :: y in Held(w) && y != x ==> Used(given, y)
  {
    assert SpanFine(w, x);
    GiveRunBalance(w.pool, x.start, x.pages);
    forall y | y in Held(w) && y != x
      ensures Used(given, y)
    {
      assert SpanFine(w, y);
      StillUsed(w.pool, given, y, x);
    }
  }

  lemma GrowRefuseKeeps(w: World, x: Span)
    requires Inv(w) && x in w.growing
    ensures Inv(Next(w, GrowRefuse(x)))
  {
    var v := Next(w, GrowRefuse(x));
    assert w.growing == {x} && v.growing == {} by {
      SubsetSize({x}, w.growing);
    }
    GivenSpan(w, x, v.pool);
    PageCountOne(x);
    forall y | y in Held(v)
      ensures SpanFine(v, y)
    {
      assert SpanFine(w, y);
    }
    assert SpanFine(w, x);
    HousesKept(w, v);
  }

  lemma ReturnPagesKeeps(w: World, x: Span)
    requires Inv(w) && x in w.returning
    ensures Inv(Next(w, ReturnPages(x)))
  {
    var v := Next(w, ReturnPages(x));
    GivenSpan(w, x, v.pool);
    ReturnedSizes(w, x);
    SpanLeaves(w, v, x);
    HousesKept(w, v);
  }

  lemma ReturnedSizes(w: World, x: Span)
    requires Inv(w) && x in w.returning && |Next(w, ReturnPages(x)).pool.free| == |w.pool.free| + x.pages
    ensures Conserved(Next(w, ReturnPages(x))) && Sized(Next(w, ReturnPages(x)))
  {
    PageCountRemove(w.claimed, x);
    OwedOneMore(w.owed, x);
  }

  /** The spans that stay and the pages of others are as they were. */
  lemma SpanLeaves(w: World, v: World, x: Span)
    requires Inv(w) && x in w.returning && v == w.(pool := v.pool, claimed := w.claimed - {x},
                                                   returning := w.returning - {x}, owed := v.owed)
    requires v.pool.total == w.pool.total && v.pool.free == w.pool.free + PagesOf(x)
    requires forall y :: y in Held(w) && y != x ==> Used(v.pool, y)
    ensures SpansFine(v) && OthersFine(v)
  {
    forall y | y in Held(v)
      ensures SpanFine(v, y)
    {
      assert SpanFine(w, y);
    }
    assert SpanFine(w, x);
  }

  /** A span without live allocations houses none, so it can leave the heap. */
  lemma DetachKeeps(w: World, x: Span)
    requires Inv(w) && Enabled(w, Detach(x))
    ensures Inv(Next(w, Detach(x)))
  {
    var v := Next(w, Detach(x));
    assert Held(v) == Held(w);
    forall y | y in Held(v)
      ensures SpanFine(v, y)
    {
      assert SpanFine(w, y);
    }
    forall b | b in v.live
      ensures Housed(v, b)
    {
      assert Housed(w, b);
      var y :| y in w.claimed - w.returning && Inside(b, y);
      assert y != x by {
        assert !Touches(b, x);
      }
      assert y in v.claimed - v.returning;
    }
    SubsetSize(v.tracked, w.tracked);
  }

  lemma MallocKeeps(w: World, b: Block)
    requires Inv(w) && Enabled(w, Malloc(b))
    ensures Inv(Next(w, Malloc(b)))
  {
    var v := Next(w, Malloc(b));
    forall x | x in Held(v)
      ensures SpanFine(v, x)
    {
      assert SpanFine(w, x);
    }
    forall c | c in v.live
      ensures Housed(v, c)
    {
      if c != b {
        assert Housed(w, c);
      }
    }
  }

  lemma FreeKeeps(w: World, b: Block)
    requires Inv(w)
    ensures Inv(Next(w, Free(b)))
  {
    var v := Next(w, Free(b));
    forall x | x in Held(v)
      ensures SpanFine(v, x)
    {
      assert SpanFine(w, x);
    }
    HousesKept(w, v);
  }

  lemma OtherTakeKeeps(w: World, count: nat)
    requires Inv(w) && AllocRun(w.pool, count).1.Some?
    ensures Inv(Next(w, OtherTake(count)))
  {
    TakenIsUsed(w.pool, count);
    RunBalance(w.pool, count);
    var taken, s := AllocRun(w.pool, count).0, Span(AllocRun(w.pool, count).1.value, count);
    RunLeaves(w, taken, s);
    assert Next(w, OtherTake(count)) == w.(pool := taken, others := w.others + PagesOf(s));
  }

  /** A free run can be taken by somebody else. */
  lemma RunLeaves(w: World, taken: Pool, s: Span)
    requires Inv(w) && s.pages >= 1 && IsRun(w.pool.free, s.start, s.pages)
    requires Wf(taken) && taken.total == w.pool.total && taken.free == w.pool.free - PagesOf(s) && Used(taken, s)
    requires |taken.free| == |w.pool.free| - s.pages
    ensures Inv(w.(pool := taken, others := w.others + PagesOf(s)))
  {
    var v := w.(pool := taken, others := w.others + PagesOf(s));
    IntervalSize(s.start, s.start + s.pages);
    OthersGrow(w, PagesOf(s));
    forall x | x in Held(w)
      ensures SpanFine(v, x)
    {
      assert SpanFine(w, x);
      UsedApartFromRun(w.pool, x, s);
      UsedAfterTake(w.pool, taken, x);
    }
    HousesKept(w, v);
  }

  lemma OthersGrow(w: World, run: set<nat>)
    requires OthersFine(w) && run <= w.pool.free
    ensures |w.others + run| == |w.others| + |run|
  {
    assert w.others !! run;
  }

  lemma OtherGiveKeeps(w: World, p: nat)
    requires Inv(w) && p in w.others
    ensures Inv(Next(w, OtherGive(p)))
  {
    var v := Next(w, OtherGive(p));
    forall x | x in Held(v)
      ensures SpanFine(v, x)
    {
      assert SpanFine(w, x);
    }
    HousesKept(w, v);
    assert |v.others| == |w.others| - 1 && |v.pool.free| == |w.pool.free| + 1;
  }

  lemma StepKeepsInv(w: World, s: Step)
    requires Inv(w) && Enabled(w, s)
    ensures Inv(Next(w, s))
  {
    match s
    case GrowTake(n) => if AllocRun(w.pool, n).1.Some? { GrowTakeKeeps(w, n); }
    case GrowClaim(x) => GrowClaimKeeps(w, x);
    case GrowCount(x) => GrowCountKeeps(w, x);
    case GrowRefuse(x) => GrowRefuseKeeps(w, x);
    case Detach(x) => DetachKeeps(w, x);
    case ReturnPages(x) => ReturnPagesKeeps(w, x);
    case SubtractSize(i) => SubtractSizeKeeps(w, i);
    case Malloc(b) => MallocKeeps(w, b);
    case Free(b) => FreeKeeps(w, b);
    case OtherTake(count) => if AllocRun(w.pool, count).1.Some? { OtherTakeKeeps(w, count); }
    case OtherGive(page) => OtherGiveKeeps(w, page);
  }

  // ---------------------------------------------------------------- runs

  ghost predicate Feasible(w: World, ss: seq<Step>)
    decreases |ss|
  {
    ss == [] || (Enabled(w, ss[0]) && Feasible(Next(w, ss[0]), ss[1..]))
  }

  ghost function After(w: World, ss: seq<Step>): World
    decreases |ss|
  {
    if ss == [] then w else After(Next(w, ss[0]), ss[1..])
  }

  /** The heap before any growth: the pages not free belong to others, the heap has its seed only. */
  ghost function Start(pool: Pool, others: set<nat>, seed: nat): World {
    World(pool, {}, {}, {}, {}, {}, [], {}, seed, seed, others)
  }

  lemma StartInv(pool: Pool, seed: nat)
    requires Wf(pool)
    ensures Inv(Start(pool, Interval(0, pool.total) - pool.free, seed))
  {
    IntervalSize(0, pool.total);
    assert pool.free <= Interval(0, pool.total);
    assert |Interval(0, pool.total) - pool.free| == pool.total - |pool.free|;
  }

  lemma NextSameMachine(w: World, s: Step)
    ensures Next(w, s).pool.total == w.pool.total && Next(w, s).seed == w.seed
  {
  }

  lemma {:induction false} InvThroughout(w: World, ss: seq<Step>)
    requires Inv(w) && Feasible(w, ss)
    ensures Inv(After(w, ss))
    ensures After(w, ss).pool.total == w.pool.total && After(w, ss).seed == w.seed
    decreases |ss|
  {
    if ss != [] {
      StepKeepsInv(w, ss[0]);
      NextSameMachine(w, ss[0]);
      InvThroughout(Next(w, ss[0]), ss[1..]);
    }
  }

  /**
   In every run from the start of the heap: no live allocation reaches into a free page or a page of
   somebody else, recorded spans are wholly allocated and share no page, no page is lost or counted
   twice, and the heap size is the seed, the bytes of the claimed spans but for one being added, and
   the bytes of the spans that are owed; with neither under way it is exact.
   */
  lemma HeapNeverLosesPages(pool: Pool, seed: nat, ss: seq<Step>, b: Block, a: int)
    requires Wf(pool) && Feasible(Start(pool, Interval(0, pool.total) - pool.free, seed), ss)
    ensures var w := After(Start(pool, Interval(0, pool.total) - pool.free, seed), ss);
            && (b in w.live && b.lo <= a < b.hi ==>
                  && 0 <= a && a / PAGE_SIZE < pool.total
                  && a / PAGE_SIZE !in w.pool.free && a / PAGE_SIZE !in w.others)
            && (forall x :: x in w.tracked ==> Used(w.pool, x))
            && (forall x, y :: x in w.tracked && y in w.tracked && x != y ==> HeapGrowth.Apart(x, y))
            && |w.pool.free| + PageCount(w.claimed) + PageCount(w.growing) + |w.others| == pool.total
            && w.heapSize == seed + (PageCount(w.claimed) - PageCount(w.uncounted) + OwedPages(w.owed)) * PAGE_SIZE
            && (w.uncounted == {} && w.owed == [] ==> w.heapSize == seed + PageCount(w.claimed) * PAGE_SIZE)
  {
    var start := Start(pool, Interval(0, pool.total) - pool.free, seed);
    StartInv(pool, seed);
    InvThroughout(start, ss);
    var w := After(start, ss);
    if b in w.live && b.lo <= a < b.hi {
      LiveIsUsed(w, b, a);
    }
    forall x | x in w.tracked
      ensures Used(w.pool, x)
    {
      assert SpanFine(w, x);
    }
  }

  lemma LiveIsUsed(w: World, b: Block, a: int)
    requires Inv(w) && b in w.live && b.lo <= a < b.hi
    ensures 0 <= a && a / PAGE_SIZE < w.pool.total && a / PAGE_SIZE !in w.pool.free && a / PAGE_SIZE !in w.others
  {
    assert Housed(w, b);
    var x :| x in w.claimed - w.returning && Inside(b, x);
    assert SpanFine(w, x);
    assert x.start <= a / PAGE_SIZE < x.start + x.pages;
  }
}
