/**
 How the kernel heap takes page spans from the physical memory manager and records them: the
 requested length, its back-off, and the registry of spans that can be given back.
 */
module HeapGrowth {
  import opened Prelude
  import opened PagePool

  const HEAP_GROW_PAGES: nat := 64
  const HEAP_GROW_HEADROOM_PAGES: nat := 2
  const MAX_CLAIMED_SPANS: nat := 512

  /** Pages [start, start + pages); no pages at all marks an empty registry slot. */
  datatype Span = Span(start: nat, pages: nat)

  const NO_SPAN: Span := Span(0, 0)

  ghost function PagesOf(s: Span): (r: set<nat>)
    ensures forall p: nat :: p in r <==> s.start <= p < s.start + s.pages
  {
    Interval(s.start, s.start + s.pages)
  }

  predicate Apart(s: Span, t: Span) {
    s.start + s.pages <= t.start || t.start + t.pages <= s.start
  }

  /** All pages of the span exist and are allocated. */
  ghost predicate Used(pool: Pool, s: Span) {
    s.start + s.pages <= pool.total && forall p :: s.start <= p < s.start + s.pages ==> p !in pool.free
  }

  /** The pages a layout of `size` bytes takes, with room for the heap's own bookkeeping. */
  function NeededPages(size: nat): (n: nat)
    ensures n >= 2 && (n - 2) * 4096 >= size && (size > 0 ==> (n - 3) * 4096 < size)
  {
    (size + PAGE_SIZE - 1) / PAGE_SIZE + HEAP_GROW_HEADROOM_PAGES
  }

  /** Under pressure exactly what is needed, otherwise at least the usual growth. */
  function HeapGrowInitialPages(needed: nat, free: nat): (n: nat)
    ensures n >= needed
    ensures free <= 128 ==> n == needed
    ensures free > 128 ==> n >= 64 && (n > 64 ==> n == needed)
  {
    if free <= 2 * HEAP_GROW_PAGES then needed else Max(needed, HEAP_GROW_PAGES)
  }

  /** Half the length, but never less than what is needed; nothing after that was tried. */
  function HeapGrowBackoff(n: nat, needed: nat): (r: Option<nat>)
    ensures r.None? <==> n <= needed
    ensures r.Some? ==> needed <= r.value < n
    ensures r.Some? ==> n <= 2 * r.value + 1 && (r.value > needed ==> 2 * r.value <= n)
  {
    if n <= needed then None else Some(Max(n / 2, needed))
  }

  /** The requests of one growth, from `n` pages on: the first that is served ends it. */
  ghost function Grow(pool: Pool, n: nat, needed: nat): (r: (Pool, Option<Span>))
    decreases n
  {
    var got := AllocRun(pool, n);
    if got.1.Some? then (got.0, Some(Span(got.1.value, n)))
    else
      var next := HeapGrowBackoff(n, needed);
      if next.None? then (pool, None) else Grow(pool, next.value, needed)
  }

  /** A longer run contains a shorter one. */
  lemma RunContains(free: set<nat>, start: nat, n: nat, needed: nat)
    requires IsRun(free, start, n) && needed <= n
    ensures IsRun(free, start, needed)
  {
  }

  /** Growth fails exactly when not even a run of the needed length is free. */
  lemma {:induction false} GrowFailsExactly(pool: Pool, n: nat, needed: nat)
    requires 1 <= needed <= n
    ensures Grow(pool, n, needed).1.None? <==> !exists s: nat :: IsRun(pool.free, s, needed)
    ensures Grow(pool, n, needed).1.None? ==> Grow(pool, n, needed).0 == pool
    decreases n
  {
    RunServedIffExists(pool, n);
    if AllocRun(pool, n).1.Some? {
      RunContains(pool.free, AllocRun(pool, n).1.value, n, needed);
    } else if n > needed {
      GrowFailsExactly(pool, HeapGrowBackoff(n, needed).value, needed);
    }
  }

  /** What growth takes: a run of free pages, long enough, and nothing else. */
  lemma {:induction false} GrowTakes(pool: Pool, n: nat, needed: nat)
    requires Wf(pool) && needed <= n && Grow(pool, n, needed).1.Some?
    ensures var r := Grow(pool, n, needed); var s := r.1.value;
            && needed <= s.pages <= n && s.pages >= 1
            && IsRun(pool.free, s.start, s.pages)
            && r.0 == AllocRun(pool, s.pages).0 && AllocRun(pool, s.pages).1 == Some(s.start)
            && r.0.free == pool.free - PagesOf(s) && Used(r.0, s) && r.0.total == pool.total
    decreases n
  {
    if AllocRun(pool, n).1.Some? {
      var s := Span(AllocRun(pool, n).1.value, n);
      assert s.start + n - 1 in pool.free;
    } else {
      GrowTakes(pool, HeapGrowBackoff(n, needed).value, needed);
    }
  }

  /** Growth takes all it asks for first, or half at least of the longest free run. */
  lemma {:induction false} GrowIsAmple(pool: Pool, n: nat, needed: nat, start: nat, length: nat)
    requires 1 <= needed <= n && Grow(pool, n, needed).1.Some? && IsRun(pool.free, start, length)
    ensures Grow(pool, n, needed).1.value.pages == n || length <= 2 * Grow(pool, n, needed).1.value.pages
    decreases n
  {
    if AllocRun(pool, n).1.None? {
      RunServedIffExists(pool, n);
      if length >= n {
        RunContains(pool.free, start, length, n);
      }
      GrowIsAmple(pool, HeapGrowBackoff(n, needed).value, needed, start, length);
    }
  }

  /** Giving a refused span back restores the free pages. */
  lemma RefusedSpanComesBack(pool: Pool, n: nat, needed: nat)
    requires Wf(pool) && needed <= n && Grow(pool, n, needed).1.Some?
    ensures var r := Grow(pool, n, needed); var s := r.1.value;
            && FreeRun(r.0, s.start, s.pages).free == pool.free
            && NamesAllocated(r.0, GiveRun(s.start, s.pages)) && r.0.total == pool.total
  {
    GrowTakes(pool, n, needed);
    var r := Grow(pool, n, needed);
    var s := r.1.value;
    assert Interval(s.start, s.start + s.pages) <= pool.free;
  }

  // ---------------------------------------------------------------- the registry

  /** The first empty slot at or after k. */
  function FreeSlot(registry: seq<Span>, k: nat): (r: nat)
    requires k <= |registry|
    ensures k <= r <= |registry|
    ensures r < |registry| ==> registry[r].pages == 0
    ensures forall i :: k <= i < r ==> registry[i].pages != 0
    decreases |registry| - k
  {
    if k == |registry| || registry[k].pages == 0 then k else FreeSlot(registry, k + 1)
  }

  /** A span goes into the first empty slot; if there is none it stays unrecorded. */
  function Register(registry: seq<Span>, s: Span): (r: seq<Span>)
    ensures |r| == |registry|
    ensures (exists i :: 0 <= i < |registry| && registry[i].pages == 0) ==> exists i :: 0 <= i < |r| && r[i] == s
    ensures forall i :: 0 <= i < |registry| && registry[i].pages != 0 ==> r[i] == registry[i]
  {
    var k := FreeSlot(registry, 0);
    if k < |registry| then assert registry[k := s][k] == s; registry[k := s] else registry
  }

  ghost predicate SpanOk(registry: seq<Span>, pool: Pool, k: nat)
    requires k < |registry|
  {
    Used(pool, registry[k])
  }

  /** Recorded spans are allocated and share no page. */
  ghost predicate RegistryOk(registry: seq<Span>, pool: Pool) {
    && (forall k: nat {:trigger SpanOk(registry, pool, k)} :: k < |registry| ==> SpanOk(registry, pool, k))
    && forall j, k :: 0 <= j < k < |registry| && registry[j].pages > 0 && registry[k].pages > 0 ==>
                        Apart(registry[j], registry[k])
  }

  lemma UsedAfterTake(pool: Pool, taken: Pool, s: Span)
    requires Used(pool, s) && taken.free <= pool.free && taken.total == pool.total
    ensures Used(taken, s)
  {
  }

  /** Recording a span that was just taken keeps the registry in order. */
  lemma RegisterKeepsOk(registry: seq<Span>, pool: Pool, taken: Pool, s: Span)
    requires RegistryOk(registry, pool) && taken.total == pool.total
    requires IsRun(pool.free, s.start, s.pages) && taken.free == pool.free - PagesOf(s) && Used(taken, s)
    ensures RegistryOk(registry, taken) && RegistryOk(Register(registry, s), taken)
  {
    forall k: nat | k < |registry|
      ensures SpanOk(registry, taken, k) && (registry[k].pages > 0 && s.pages > 0 ==> Apart(registry[k], s))
    {
      assert SpanOk(registry, pool, k);
      UsedAfterTake(pool, taken, registry[k]);
      UsedApartFromRun(pool, registry[k], s);
    }
    var r := Register(registry, s);
    forall k: nat | k < |r|
      ensures SpanOk(r, taken, k)
    {
      assert SpanOk(registry, taken, k);
    }
  }

  lemma UsedApartFromRun(pool: Pool, t: Span, s: Span)
    requires Used(pool, t) && IsRun(pool.free, s.start, s.pages)
    ensures t.pages > 0 && s.pages > 0 ==> Apart(t, s)
  {
    if t.pages > 0 && s.pages > 0 && !Apart(t, s) {
      assert Max(t.start, s.start) in pool.free;
    }
  }

  // ---------------------------------------------------------------- live allocations

  /** A live allocation: bytes [lo, hi) of physical memory, counted from its first page. */
  datatype Block = Block(lo: int, hi: int)

  predicate Touches(b: Block, s: Span) {
    b.lo < (s.start + s.pages) * PAGE_SIZE && s.start * PAGE_SIZE < b.hi
  }

  /** The heap sees no allocation in the span. */
  predicate AllFree(live: set<Block>, s: Span) {
    forall b :: b in live ==> !Touches(b, s)
  }

  predicate Inside(b: Block, s: Span) {
    s.start * PAGE_SIZE <= b.lo < b.hi <= (s.start + s.pages) * PAGE_SIZE
  }

  /** An allocation touches a span exactly if they have a byte in common, and is inside if it has no other. */
  lemma TouchesExactly(b: Block, s: Span)
    requires b.lo < b.hi && s.pages > 0
    ensures Touches(b, s) <==> exists a :: b.lo <= a < b.hi && InSpan(a, s)
    ensures Inside(b, s) <==> forall a :: b.lo <= a < b.hi ==> InSpan(a, s)
  {
    if Touches(b, s) {
      assert InSpan(Max(b.lo, s.start * PAGE_SIZE), s);
    }
    if forall a :: b.lo <= a < b.hi ==> InSpan(a, s) {
      assert InSpan(b.lo, s) && InSpan(b.hi - 1, s);
    }
  }

  /** The byte at address a lies on a page of the span. */
  predicate InSpan(a: int, s: Span) {
    s.start <= a / 4096 < s.start + s.pages
  }

  // ---------------------------------------------------------------- giving spans back

  predicate Reclaimable(s: Span, live: set<Block>) {
    s.pages > 0 && AllFree(live, s)
  }

  /** The registry after the reclaimable spans of its first k slots are gone. */
  function Swept(registry: seq<Span>, live: set<Block>, k: nat): (r: seq<Span>)
    ensures |r| == |registry|
  {
    seq(|registry|, i requires 0 <= i < |registry| =>
      if i < k && Reclaimable(registry[i], live) then NO_SPAN else registry[i])
  }

  /** Page p belongs to a reclaimable span of the first k slots. */
  ghost predicate SweptPage(registry: seq<Span>, live: set<Block>, k: nat, p: nat) {
    exists i :: 0 <= i < |registry| && i < k && Reclaimable(registry[i], live) && p in PagesOf(registry[i])
  }

  /** The next reclaimable slot extends the sweep by one span. */
  lemma SweepStep(registry: seq<Span>, live: set<Block>, done: nat, r: nat)
    requires done <= r < |registry| && Reclaimable(registry[r], live)
    requires forall i :: done <= i < r ==> !Reclaimable(registry[i], live)
    ensures Swept(registry, live, done)[r := NO_SPAN] == Swept(registry, live, r + 1)
    ensures forall p: nat :: SweptPage(registry, live, r + 1, p) <==>
                             SweptPage(registry, live, done, p) || p in PagesOf(registry[r])
  {
  }

  lemma SweepEnd(registry: seq<Span>, live: set<Block>, done: nat)
    requires done <= |registry| && forall i :: done <= i < |registry| ==> !Reclaimable(registry[i], live)
    ensures Swept(registry, live, done) == Swept(registry, live, |registry|)
  {
  }

  /** After a full sweep no recorded span is entirely free. */
  lemma SweptLeavesNone(registry: seq<Span>, live: set<Block>, i: nat)
    requires i < |registry|
    ensures !Reclaimable(Swept(registry, live, |registry|)[i], live)
  {
  }

  /** Every page of a recorded span without live allocations comes back. */
  lemma RecordedComesBack(registry: seq<Span>, live: set<Block>, s: Span, p: nat)
    requires s in registry && Reclaimable(s, live) && p in PagesOf(s)
    ensures SweptPage(registry, live, |registry|, p)
  {
    var i :| 0 <= i < |registry| && registry[i] == s;
  }

  /** Live allocations are not empty and lie on pages that are not free. */
  ghost predicate LiveOnUsed(live: set<Block>, free: set<nat>) {
    && (forall b :: b in live ==> b.lo < b.hi)
    && forall b, p :: b in live && p in free ==> !Touches(b, Span(p, 1))
  }

  /** No live allocation is in a run of free pages. */
  lemma FreeRunIsAllFree(live: set<Block>, free: set<nat>, s: Span)
    requires LiveOnUsed(live, free) && IsRun(free, s.start, s.pages) && s.pages > 0
    ensures AllFree(live, s)
  {
    forall b | b in live
      ensures !Touches(b, s)
    {
      if Touches(b, s) {
        PageInBoth(b, s);
      }
    }
  }

  /** Where an allocation and a span meet, they meet in a page of the span. */
  lemma PageInBoth(b: Block, s: Span)
    requires b.lo < b.hi && Touches(b, s) && s.pages > 0
    ensures var at := Max(b.lo, s.start * PAGE_SIZE) / PAGE_SIZE;
            s.start <= at < s.start + s.pages && Touches(b, Span(at, 1))
  {
  }

  /** Giving one recorded span back keeps the others in order. */
  lemma ReturnKeepsOk(registry: seq<Span>, pool: Pool, r: nat)
    requires RegistryOk(registry, pool) && r < |registry| && registry[r].pages > 0
    ensures NamesAllocated(pool, GiveRun(registry[r].start, registry[r].pages))
    ensures var given := FreeRun(pool, registry[r].start, registry[r].pages);
            && given.free == pool.free + PagesOf(registry[r])
            && |given.free| == |pool.free| + registry[r].pages
            && RegistryOk(registry[r := NO_SPAN], given)
  {
    var s := registry[r];
    var given := FreeRun(pool, s.start, s.pages);
    assert SpanOk(registry, pool, r);
    GiveRunBalance(pool, s.start, s.pages);
    var left := registry[r := NO_SPAN];
    forall k: nat | k < |left|
      ensures SpanOk(left, given, k)
    {
      if k != r {
        assert SpanOk(registry, pool, k);
        StillUsed(pool, given, registry[k], s);
      }
    }
  }

  lemma StillUsed(pool: Pool, given: Pool, t: Span, s: Span)
    requires Used(pool, t) && given.total == pool.total && given.free == pool.free + PagesOf(s)
    requires t.pages > 0 && s.pages > 0 ==> Apart(t, s)
    ensures Used(given, t)
  {
  }
}
