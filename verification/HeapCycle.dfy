/** What the steps of the kernel heap achieve: spans and pages that are taken can be given back. */
module HeapCycle {
  import opened Prelude
  import opened PagePool
  import opened HeapGrowth
  import opened HeapRuns

  /** The same world, but for the allocator's hint. */
  ghost predicate Restored(after: World, w: World) {
    after.pool.free == w.pool.free && after.pool.total == w.pool.total && after.(pool := w.pool) == w
  }

  /** The span that a growth by n pages takes. */
  ghost function Taken(w: World, n: nat): Span
    requires AllocRun(w.pool, n).1.Some?
  {
    Span(AllocRun(w.pool, n).1.value, n)
  }

  /** A run of n pages is free, and the heap is not locked. */
  ghost predicate CanGrow(w: World, n: nat) {
    Unlocked(w) && n >= 1 && exists s: nat :: IsRun(w.pool.free, s, n)
  }

  lemma TakenIsNew(w: World, n: nat)
    requires Inv(w) && CanGrow(w, n)
    ensures AllocRun(w.pool, n).1.Some? && var x := Taken(w, n);
            && IsRun(w.pool.free, x.start, n) && x !in w.claimed && x !in w.tracked && x !in w.returning
            && AllocRun(w.pool, n).0.free == w.pool.free - PagesOf(x)
            && AllocRun(w.pool, n).0.total == w.pool.total && PagesOf(x) <= w.pool.free
            && x.start + n <= w.pool.total
  {
    RunServedIffExists(w.pool, n);
    var x := Taken(w, n);
    assert x.start in w.pool.free && x.start + n - 1 in w.pool.free;
    assert x in w.claimed ==> SpanFine(w, x);
  }

  /** The steps of a growth that the heap accepts. */
  function GrowSteps(x: Span): seq<Step> {
    [GrowTake(x.pages), GrowClaim(x), GrowCount(x)]
  }

  /** The world after a growth: the span belongs to the heap, is counted, and is recorded if a slot is left. */
  ghost predicate Grown(after: World, w: World, x: Span) {
    && after.pool.free == w.pool.free - PagesOf(x) && after.pool.total == w.pool.total
    && after.claimed == w.claimed + {x} && after.heapSize == w.heapSize + x.pages * 4096
    && after.tracked == (if |w.tracked| < 512 then w.tracked + {x} else w.tracked)
    && after.growing == {} && after.uncounted == {} && after.returning == w.returning && after.owed == w.owed
    && after.live == w.live && after.seed == w.seed && after.others == w.others
  }

  lemma RunOfTwo(w: World, a: Step, b: Step)
    requires Enabled(w, a) && Enabled(Next(w, a), b)
    ensures Feasible(w, [a, b]) && After(w, [a, b]) == Next(Next(w, a), b)
  {
    assert [a, b][1..] == [b] && [b][1..] == [];
    assert After(Next(w, a), [b]) == Next(Next(w, a), b);
  }

  lemma RunOfThree(w: World, a: Step, b: Step, c: Step)
    requires Enabled(w, a) && Enabled(Next(w, a), b) && Enabled(Next(Next(w, a), b), c)
    ensures Feasible(w, [a, b, c]) && After(w, [a, b, c]) == Next(Next(Next(w, a), b), c)
  {
    assert [a, b, c][1..] == [b, c];
    RunOfTwo(Next(w, a), b, c);
  }

  /** Whenever a run of n pages is free, the heap can grow by it. */
  lemma GrowthTakes(w: World, n: nat)
    requires Inv(w) && CanGrow(w, n)
    ensures AllocRun(w.pool, n).1.Some? && var x := Taken(w, n);
            && IsRun(w.pool.free, x.start, n)
            && Feasible(w, GrowSteps(x)) && Grown(After(w, GrowSteps(x)), w, x)
  {
    TakenIsNew(w, n);
    var x := Taken(w, n);
    RunOfThree(w, GrowTake(n), GrowClaim(x), GrowCount(x));
  }

  /** A growth that the heap refuses changes nothing. */
  lemma RefusedGrowthRestores(w: World, n: nat)
    requires Inv(w) && CanGrow(w, n)
    ensures AllocRun(w.pool, n).1.Some? && var steps := [GrowTake(n), GrowRefuse(Taken(w, n))];
            Feasible(w, steps) && Restored(After(w, steps), w)
  {
    TakenIsNew(w, n);
    RunOfTwo(w, GrowTake(n), GrowRefuse(Taken(w, n)));
    assert w.pool.free - PagesOf(Taken(w, n)) + PagesOf(Taken(w, n)) == w.pool.free;
  }

  /** The steps that give a recorded span back. */
  function ReturnSteps(x: Span, i: nat): seq<Step> {
    [Detach(x), ReturnPages(x), SubtractSize(i)]
  }

  /** The world after a span has been given back. */
  ghost predicate GivenBack(after: World, w: World, x: Span) {
    && after.pool.free == w.pool.free + PagesOf(x) && after.pool.total == w.pool.total
    && after.claimed == w.claimed - {x} && after.tracked == w.tracked - {x}
    && after.heapSize == w.heapSize - x.pages * 4096
    && after.growing == w.growing && after.uncounted == w.uncounted && after.returning == w.returning
    && after.owed == w.owed && after.live == w.live && after.seed == w.seed && after.others == w.others
  }

  /** Every recorded span without a live allocation can be given back, pages and bytes. */
  lemma SpanComesBack(w: World, x: Span)
    requires Inv(w) && Unlocked(w) && x in w.tracked
    requires forall b, a :: b in w.live && b.lo <= a < b.hi ==> !InSpan(a, x)
    ensures Feasible(w, ReturnSteps(x, |w.owed|)) && GivenBack(After(w, ReturnSteps(x, |w.owed|)), w, x)
  {
    assert SpanFine(w, x);
    forall b | b in w.live
      ensures !Touches(b, x)
    {
      assert Housed(w, b);
      TouchesExactly(b, x);
    }
    SpanReturned(w, x);
  }

  lemma SpanReturned(w: World, x: Span)
    requires Unlocked(w) && x in w.tracked && AllFree(w.live, x) && SpanFine(w, x) && x !in w.returning
    ensures Feasible(w, ReturnSteps(x, |w.owed|)) && GivenBack(After(w, ReturnSteps(x, |w.owed|)), w, x)
  {
    RunOfThree(w, Detach(x), ReturnPages(x), SubtractSize(|w.owed|));
    assert (w.owed + [x])[..|w.owed|] + (w.owed + [x])[|w.owed| + 1..] == w.owed;
  }

  /** The byte at address a belongs to the allocation. */
  predicate Has(b: Block, a: int) {
    b.lo <= a < b.hi
  }

  /** Any bytes of a span in the heap can be allocated if no live allocation has one of them. */
  lemma AllocationPossible(w: World, b: Block, x: Span)
    requires Inv(w) && Unlocked(w) && x in w.claimed && x !in w.returning && Inside(b, x)
    requires forall c, a :: c in w.live && Has(c, a) ==> !Has(b, a)
    ensures Enabled(w, Malloc(b))
  {
    forall c | c in w.live
      ensures b.hi <= c.lo || c.hi <= b.lo
    {
      assert Housed(w, c);
      assert Has(c, Max(b.lo, c.lo)) ==> !Has(b, Max(b.lo, c.lo));
    }
  }

  /** A span with a live allocation cannot leave the heap; the allocation can be freed again. */
  lemma AllocationPins(w: World, b: Block, x: Span)
    requires Inv(w) && Enabled(w, Malloc(b)) && x in w.claimed && Inside(b, x)
    ensures var after := Next(w, Malloc(b));
            && after.live == w.live + {b} && after.(live := w.live) == w && !Enabled(after, Detach(x))
            && Enabled(after, Free(b)) && (b !in w.live ==> Next(after, Free(b)) == w)
  {
    assert b in Next(w, Malloc(b)).live && Touches(b, x);
  }

  /** Others get a run of pages exactly if one is free. */
  lemma OthersTake(w: World, count: nat)
    requires count >= 1
    ensures Enabled(w, OtherTake(count))
    ensures (forall s: nat :: !IsRun(w.pool.free, s, count)) ==> Next(w, OtherTake(count)) == w
    ensures (exists s: nat :: IsRun(w.pool.free, s, count)) ==>
              AllocRun(w.pool, count).1.Some? && var after, x := Next(w, OtherTake(count)), Taken(w, count);
              && IsRun(w.pool.free, x.start, count) && after.pool.free == w.pool.free - PagesOf(x)
              && after.others == w.others + PagesOf(x) && after.(pool := w.pool, others := w.others) == w
  {
    RunServedIffExists(w.pool, count);
  }

  /** What others give back is free. */
  lemma OthersGive(w: World, page: nat)
    requires Inv(w) && page in w.others
    ensures var after := Next(w, OtherGive(page));
            && after.pool.free == w.pool.free + {page} && after.others == w.others - {page}
            && after.(pool := w.pool, others := w.others) == w
  {
  }

  /** Live allocations have no byte in common. */
  ghost predicate LiveApart(w: World) {
    forall b, c :: b in w.live && c in w.live && b != c ==> b.hi <= c.lo || c.hi <= b.lo
  }

  lemma {:induction false} ApartThroughout(w: World, ss: seq<Step>)
    requires LiveApart(w) && Feasible(w, ss)
    ensures LiveApart(After(w, ss))
    decreases |ss|
  {
    if ss != [] {
      ApartThroughout(Next(w, ss[0]), ss[1..]);
    }
  }

  /** In every run live allocations have no byte in common. */
  lemma AllocationsNeverOverlap(pool: Pool, others: set<nat>, seed: nat, ss: seq<Step>)
    requires Feasible(Start(pool, others, seed), ss)
    ensures LiveApart(After(Start(pool, others, seed), ss))
  {
    ApartThroughout(Start(pool, others, seed), ss);
  }
}
