/**
 The out-of-memory handler of the kernel heap and the reclaim of free spans. The heap proper appears
 as its live allocations and the answers it gives.
 */
module KernelHeap {
  import opened Prelude
  import opened PagePool
  import opened FrameManager
  import opened HeapGrowth

  class Heap {
    const pmm: Manager
    const registry: array<Span>
    var pmmReady: bool
    var heapSize: int
    var reclaimedTotal: nat
    var live: set<Block>

    ghost function Pages(): Pool
      reads pmm, pmm.pmm
    {
      pmm.View().ledger.pool
    }

    ghost predicate Valid()
      reads this, registry, pmm, pmm.pmm, pmm.pmm.bitmap
    {
      && pmm.Valid()
      && registry.Length == MAX_CLAIMED_SPANS
      && RegistryOk(registry[..], Pages())
    }

    constructor (manager: Manager, seedBytes: nat)
      requires manager.Valid()
      ensures Valid() && pmm == manager && fresh(registry)
      ensures !pmmReady && heapSize == seedBytes && reclaimedTotal == 0 && live == {}
      ensures registry.Length == 512 && forall k :: 0 <= k < registry.Length ==> registry[k] == NO_SPAN
    {
      pmm := manager;
      registry := new Span[MAX_CLAIMED_SPANS](_ => NO_SPAN);
      pmmReady, heapSize, reclaimedTotal, live := false, seedBytes, 0, {};
      new;
      EmptyRegistryOk(registry[..], manager.View().ledger.pool);
    }

    /** Record a span in the first empty slot, if there is one; `slot` is that slot. */
    method RegisterClaimedSpan(s: Span) returns (ghost slot: nat)
      modifies registry
      ensures slot <= registry.Length && forall i :: 0 <= i < slot ==> old(registry[i]).pages != 0
      ensures slot < registry.Length ==>
                old(registry[slot]).pages == 0 && registry[..] == old(registry[..])[slot := s]
      ensures slot == registry.Length ==> registry[..] == old(registry[..])
      ensures registry[..] == Register(old(registry[..]), s)
    {
      var k := 0;
      while k < registry.Length
        invariant 0 <= k <= registry.Length
        invariant registry[..] == old(registry[..])
        invariant forall i :: 0 <= i < k ==> registry[i].pages != 0
        invariant FreeSlot(registry[..], 0) == FreeSlot(registry[..], k)
      {
        if registry[k].pages == 0 {
          registry[k] := s;
          return k;
        }
        k := k + 1;
      }
      slot := k;
    }

    /** Take the first run of pages that can be had, from `n` pages down to what is needed. */
    method TakeSpan(first: nat, needed: nat) returns (span: Option<Span>)
      requires Valid() && 1 <= needed <= first
      modifies pmm`allocatedPages, pmm.pmm, pmm.pmm.bitmap
      ensures pmm.Valid() && pmm.pmm.bitmap == old(pmm.pmm.bitmap)
      ensures (Pages(), span) == Grow(old(Pages()), first, needed)
    {
      var n := first;
      while true
        invariant needed <= n && pmm.Valid() && pmm.pmm.bitmap == old(pmm.pmm.bitmap)
        invariant Pages() == old(Pages()) && Grow(Pages(), first, needed) == Grow(Pages(), n, needed)
        decreases n
      {
        var frame := pmm.AllocPagesContiguous(n);
        if frame.Some? {
          return Some(Span(frame.value, n));
        }
        var next := HeapGrowBackoff(n, needed);
        if next.None? {
          return None;
        }
        n := next.value;
      }
    }

    /** The heap took the span: record it and count its bytes. */
    method KeepSpan(ghost before: Pool, ghost first: nat, ghost needed: nat, span: Span)
      requires pmm.Valid() && registry.Length == MAX_CLAIMED_SPANS && RegistryOk(registry[..], before)
      requires Wf(before) && needed <= first && Grow(before, first, needed) == (Pages(), Some(span))
      modifies this`heapSize, registry
      ensures Valid()
      ensures registry[..] == Register(old(registry[..]), span)
      ensures heapSize == old(heapSize) + span.pages * PAGE_SIZE
      ensures |Pages().free| + span.pages == |before.free|
    {
      GrowTakes(before, first, needed);
      RegisterKeepsOk(registry[..], before, Pages(), span);
      RunBalance(before, span.pages);
      var _ := RegisterClaimedSpan(span);
      heapSize := heapSize + span.pages * PAGE_SIZE;
    }

    /** The heap refused the span: its pages go back. */
    method RefuseSpan(ghost before: Pool, span: Span)
      requires pmm.Valid() && registry.Length == MAX_CLAIMED_SPANS && RegistryOk(registry[..], before)
      requires NamesAllocated(Pages(), GiveRun(span.start, span.pages)) && Pages().total == before.total
      requires FreeRun(Pages(), span.start, span.pages).free == before.free
      modifies pmm`allocatedPages, pmm.pmm, pmm.pmm.bitmap
      ensures Valid() && Pages().free == before.free && pmm.pmm.bitmap == old(pmm.pmm.bitmap)
    {
      pmm.FreePagesFrom(span.start, span.pages);
      SameFreeKeepsOk(registry[..], before, Pages());
    }

    /**
     Grow the heap for a layout of `size` bytes; `accepts` is the heap's answer to the new span.
     Growth succeeds exactly when the memory manager is up, some run of the needed length is free
     and the heap accepts; otherwise the set of free pages, the registry and the size stay.
     */
    method HandleOom(size: nat, accepts: bool) returns (ok: bool)
      requires Valid()
      modifies this`heapSize, registry, pmm`allocatedPages, pmm.pmm, pmm.pmm.bitmap
      ensures Valid() && pmm.pmm.bitmap == old(pmm.pmm.bitmap)
      ensures ok <==> pmmReady && accepts && exists s: nat :: IsRun(old(Pages()).free, s, NeededPages(size))
      ensures ok ==>
                var first := HeapGrowInitialPages(NeededPages(size), |old(Pages()).free|);
                var r := Grow(old(Pages()), first, NeededPages(size));
                && r.1.Some? && Pages() == r.0
                && registry[..] == Register(old(registry[..]), r.1.value)
                && heapSize == old(heapSize) + r.1.value.pages * PAGE_SIZE
                && |Pages().free| + r.1.value.pages == |old(Pages()).free|
      ensures !ok ==> Pages().free == old(Pages()).free
      ensures !ok ==> registry[..] == old(registry[..]) && heapSize == old(heapSize)
    {
      if !pmmReady {
        return false;
      }
      var needed := NeededPages(size);
      var free := pmm.FreeCount();
      var first := HeapGrowInitialPages(needed, free);
      ghost var before := Pages();
      GrowFailsExactly(before, first, needed);
      var span := TakeSpan(first, needed);
      if span.None? {
        return false;
      }
      if accepts {
        KeepSpan(before, first, needed, span.value);
        return true;
      }
      RefusedSpanComesBack(before, first, needed);
      RefuseSpan(before, span.value);
      return false;
    }

    /**
     Growth and reclaim together, with a slot left and live allocations on used pages only: whatever
     growth takes comes back, and the heap is not larger than before.
     */
    method GrowAndReclaim(size: nat) returns (ok: bool)
      requires Valid() && LiveOnUsed(live, Pages().free)
      requires exists i :: 0 <= i < registry.Length && registry[i].pages == 0
      modifies this`heapSize, this`reclaimedTotal, registry, pmm`allocatedPages, pmm.pmm, pmm.pmm.bitmap
      ensures Valid() && old(Pages()).free <= Pages().free && heapSize <= old(heapSize)
      ensures ok <==> pmmReady && exists s: nat :: IsRun(old(Pages()).free, s, NeededPages(size))
    {
      ghost var before := Pages();
      ok := HandleOom(size, true);
      if ok {
        ghost var first := HeapGrowInitialPages(NeededPages(size), |before.free|);
        GrownIsRecorded(before, first, NeededPages(size), live);
        ReclaimRecorded(before.free, Grow(before, first, NeededPages(size)).1.value);
      }
    }

    /** A reclaim with a span in the registry that has no live allocation. */
    method ReclaimRecorded(ghost before: set<nat>, ghost span: Span)
      requires Valid() && pmmReady && Reclaimable(span, live) && Pages().free == before - PagesOf(span)
      requires (exists i :: 0 <= i < registry.Length && registry[i] == span) && |Pages().free| + span.pages == |before|
      modifies this`heapSize, this`reclaimedTotal, registry, pmm`allocatedPages, pmm.pmm, pmm.pmm.bitmap
      ensures Valid() && before <= Pages().free && heapSize <= old(heapSize) - span.pages * PAGE_SIZE
    {
      ghost var grown, taken := registry[..], Pages().free;
      var reclaimed, done := ReclaimToPmm({});
      ReclaimedAll(grown, live, before, taken, Pages().free, span);
    }

    /** The first recorded span without a live allocation. */
    method FirstReclaimable() returns (r: nat)
      ensures r <= registry.Length
      ensures r < registry.Length ==> Reclaimable(registry[r], live)
      ensures forall i :: 0 <= i < r ==> !Reclaimable(registry[i], live)
    {
      r := 0;
      while r < registry.Length
        invariant 0 <= r <= registry.Length
        invariant forall i :: 0 <= i < r ==> !Reclaimable(registry[i], live)
      {
        if Reclaimable(registry[r], live) {
          return;
        }
        r := r + 1;
      }
    }

    /** Give one recorded span without live allocations back to the memory manager. */
    method ReturnSpan(r: nat)
      requires Valid() && r < registry.Length && registry[r].pages > 0
      modifies this`heapSize, registry, pmm`allocatedPages, pmm.pmm, pmm.pmm.bitmap
      ensures Valid() && pmm.pmm.bitmap == old(pmm.pmm.bitmap)
      ensures registry[..] == old(registry[..])[r := NO_SPAN]
      ensures Pages().free == old(Pages()).free + PagesOf(old(registry[r])) && Pages().total == old(Pages()).total
      ensures |Pages().free| == |old(Pages()).free| + old(registry[r]).pages
      ensures heapSize == old(heapSize) - old(registry[r]).pages * PAGE_SIZE
    {
      ReturnKeepsOk(registry[..], Pages(), r);
      var s := registry[r];
      registry[r] := NO_SPAN;
      pmm.FreePagesFrom(s.start, s.pages);
      heapSize := heapSize - s.pages * PAGE_SIZE;
    }

    /**
     Give recorded spans without live allocations back, one per round. `busy` holds the rounds in
     which the heap's lock is taken by somebody else; without any, every such span is returned.
     */
    method ReclaimToPmm(busy: set<nat>) returns (reclaimed: nat, ghost done: nat)
      requires Valid()
      modifies this`heapSize, this`reclaimedTotal, registry, pmm`allocatedPages, pmm.pmm, pmm.pmm.bitmap
      ensures Valid() && done <= MAX_CLAIMED_SPANS
      ensures pmmReady && busy == {} ==> done == MAX_CLAIMED_SPANS
      ensures registry[..] == Swept(old(registry[..]), live, done)
      ensures forall p: nat :: p in Pages().free <==>
                               p in old(Pages()).free || SweptPage(old(registry[..]), live, done, p)
      ensures |Pages().free| == |old(Pages()).free| + reclaimed
      ensures heapSize == old(heapSize) - reclaimed * PAGE_SIZE
      ensures reclaimedTotal == old(reclaimedTotal) + reclaimed
    {
      reclaimed, done := 0, 0;
      ghost var was, before := registry[..], Pages().free;
      SweepStarts(was, live, before);
      if !pmmReady {
        return;
      }
      var round := 0;
      while round < MAX_CLAIMED_SPANS
        invariant 0 <= round <= MAX_CLAIMED_SPANS && round <= done <= MAX_CLAIMED_SPANS
        invariant Valid() && pmm.pmm.bitmap == old(pmm.pmm.bitmap) && reclaimedTotal == old(reclaimedTotal)
        invariant Sweeping(registry[..], was, live, done, Pages().free, before, reclaimed)
        invariant heapSize == old(heapSize) - reclaimed * PAGE_SIZE
      {
        if round in busy {
          break;
        }
        var more;
        more, reclaimed, done := ReclaimOne(was, before, done, reclaimed);
        if !more {
          break;
        }
        round := round + 1;
      }
      reclaimedTotal := reclaimedTotal + reclaimed;
    }

    /** One round of a reclaim: the next span goes back, or there is none. */
    method ReclaimOne(ghost was: seq<Span>, ghost before: set<nat>, ghost done: nat, reclaimed: nat)
      returns (more: bool, total: nat, ghost next: nat)
      requires Valid() && done <= MAX_CLAIMED_SPANS
      requires Sweeping(registry[..], was, live, done, Pages().free, before, reclaimed)
      modifies this`heapSize, registry, pmm`allocatedPages, pmm.pmm, pmm.pmm.bitmap
      ensures Valid() && pmm.pmm.bitmap == old(pmm.pmm.bitmap)
      ensures Sweeping(registry[..], was, live, next, Pages().free, before, total)
      ensures done <= next <= MAX_CLAIMED_SPANS && (more ==> done < next) && (!more ==> next == MAX_CLAIMED_SPANS)
      ensures heapSize == old(heapSize) - (total - reclaimed) * PAGE_SIZE
    {
      var r := FirstReclaimable();
      if r == registry.Length {
        SweepFinishes(registry[..], was, live, done, Pages().free, before, reclaimed);
        return false, reclaimed, MAX_CLAIMED_SPANS;
      }
      SweepContinues(registry[..], was, live, done, r, Pages().free, before, reclaimed);
      var pages := registry[r].pages;
      ReturnSpan(r);
      return true, reclaimed + pages, r + 1;
    }
  }

  /** The span that growth takes has no live allocation in it. */
  lemma GrownIsRecorded(before: Pool, first: nat, needed: nat, live: set<Block>)
    requires Wf(before) && needed <= first && Grow(before, first, needed).1.Some? && LiveOnUsed(live, before.free)
    ensures var s := Grow(before, first, needed).1.value;
            Reclaimable(s, live) && Grow(before, first, needed).0.free == before.free - PagesOf(s)
  {
    GrowTakes(before, first, needed);
    FreeRunIsAllFree(live, before.free, Grow(before, first, needed).1.value);
  }

  /** With the span recorded, a full sweep brings back all that was free before. */
  lemma ReclaimedAll(registry: seq<Span>, live: set<Block>, before: set<nat>, taken: set<nat>, after: set<nat>, s: Span)
    requires s in registry && Reclaimable(s, live) && taken == before - PagesOf(s)
    requires forall p: nat :: p in after <==> p in taken || SweptPage(registry, live, |registry|, p)
    ensures before <= after && |before| <= |after|
  {
    forall p: nat | p in before
      ensures p in after
    {
      if p !in taken {
        RecordedComesBack(registry, live, s, p);
      }
    }
    SubsetSize(before, after);
  }

  /** The state of a reclaim: the first slots are swept, their pages are back, `reclaimed` of them. */
  ghost predicate Sweeping(now: seq<Span>, was: seq<Span>, live: set<Block>, done: nat,
                           free: set<nat>, before: set<nat>, reclaimed: nat)
  {
    && |was| == MAX_CLAIMED_SPANS && now == Swept(was, live, done)
    && (forall p: nat :: p in free <==> p in before || SweptPage(was, live, done, p))
    && |free| == |before| + reclaimed
  }

  lemma SweepStarts(was: seq<Span>, live: set<Block>, free: set<nat>)
    requires |was| == MAX_CLAIMED_SPANS
    ensures Sweeping(was, was, live, 0, free, free, 0)
  {
    assert Swept(was, live, 0) == was;
  }

  lemma SweepFinishes(now: seq<Span>, was: seq<Span>, live: set<Block>, done: nat,
                      free: set<nat>, before: set<nat>, reclaimed: nat)
    requires Sweeping(now, was, live, done, free, before, reclaimed) && done <= |was|
    requires forall i :: 0 <= i < |now| ==> !Reclaimable(now[i], live)
    ensures Sweeping(now, was, live, |was|, free, before, reclaimed)
  {
    assert forall i :: done <= i < |was| ==> now[i] == was[i];
    SweepEnd(was, live, done);
    forall p: nat
      ensures SweptPage(was, live, |was|, p) <==> SweptPage(was, live, done, p)
    {
    }
  }

  lemma SweepContinues(now: seq<Span>, was: seq<Span>, live: set<Block>, done: nat, r: nat,
                       free: set<nat>, before: set<nat>, reclaimed: nat)
    requires Sweeping(now, was, live, done, free, before, reclaimed)
    requires r < |now| && Reclaimable(now[r], live) && forall i :: 0 <= i < r ==> !Reclaimable(now[i], live)
    ensures done <= r && now[r].pages > 0
    ensures |free + PagesOf(now[r])| == |free| + now[r].pages ==>
              Sweeping(now[r := NO_SPAN], was, live, r + 1, free + PagesOf(now[r]), before, reclaimed + now[r].pages)
  {
    SweepAdvances(was, live, done, r, now);
  }

  lemma EmptyRegistryOk(registry: seq<Span>, pool: Pool)
    requires forall k :: 0 <= k < |registry| ==> registry[k] == NO_SPAN
    ensures RegistryOk(registry, pool)
  {
    forall k: nat | k < |registry|
      ensures SpanOk(registry, pool, k)
    {
    }
  }

  lemma SameFreeKeepsOk(registry: seq<Span>, pool: Pool, other: Pool)
    requires RegistryOk(registry, pool) && other.free == pool.free && other.total == pool.total
    ensures RegistryOk(registry, other)
  {
    forall k: nat | k < |registry|
      ensures SpanOk(registry, other, k)
    {
      assert SpanOk(registry, pool, k);
    }
  }

  /** The first reclaimable slot of a partly swept registry is the next one of the original. */
  lemma SweepAdvances(was: seq<Span>, live: set<Block>, done: nat, r: nat, now: seq<Span>)
    requires now == Swept(was, live, done) && r < |was| && Reclaimable(now[r], live)
    requires forall i :: 0 <= i < r ==> !Reclaimable(now[i], live)
    ensures done <= r && now[r] == was[r] && now[r := NO_SPAN] == Swept(was, live, r + 1)
    ensures forall p: nat :: SweptPage(was, live, r + 1, p) <==>
                             SweptPage(was, live, done, p) || p in PagesOf(was[r])
  {
    assert forall i :: done <= i < r ==> now[i] == was[i];
    SweepStep(was, live, done, r);
  }
}
