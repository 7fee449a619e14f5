/**
 The public physical-memory interface: the bitmap allocator behind the allocation counters and the
 copy-on-write counters. A physical frame is named by its page index.
 */
module FrameManager {
  import opened Prelude
  import opened PagePool
  import opened RefCounts
  import opened Bitmap

  /** Pages held back from user demand paging. */
  const USER_PAGE_RESERVE: nat := 16

  predicate UserAllocWouldStarve(free: nat) {
    free <= USER_PAGE_RESERVE
  }

  function UserReadaheadBudget(free: nat): (n: nat)
    ensures n <= free
    ensures free >= 16 ==> free - n == 16
    ensures n == 0 <==> UserAllocWouldStarve(free)
  {
    if free < USER_PAGE_RESERVE then 0 else free - USER_PAGE_RESERVE
  }

  /** The counters and tables of the physical memory manager. */
  datatype Books = Books(ledger: Ledger, refs: map<nat, nat>)

  /** A release: shared frames lose a reference, the last reference frees the page. */
  ghost function ReleasePage(b: Books, page: nat): Books {
    var (refs, last) := RefDec(b.refs, page);
    Books(if last then Apply(b.ledger, GiveOne(page)) else b.ledger, refs)
  }

  /** The address of a page leads back to its index. */
  lemma PageIndex(base: nat, page: nat)
    ensures (base + page * PAGE_SIZE - base) / PAGE_SIZE == page
  {
  }

  /** A contiguous free by address: below the base the bitmap ignores it, the counter does not. */
  ghost function GiveRunAt(l: Ledger, base: nat, addr: nat, count: nat): Ledger {
    Ledger(FreeRunAt(l.pool, base, addr, count), l.inUse - count, l.doubleFrees)
  }

  /** It names allocated pages only; below the base there are none. */
  ghost predicate GivesAllocated(p: Pool, base: nat, addr: nat, count: nat) {
    if addr < base then count == 0 else NamesAllocated(p, GiveRun((addr - base) / PAGE_SIZE, count))
  }

  lemma GiveRunAtBalance(l: Ledger, base: nat, addr: nat, count: nat)
    requires Balanced(l)
    ensures Balanced(GiveRunAt(l, base, addr, count)) <==> GivesAllocated(l.pool, base, addr, count)
  {
    if addr >= base {
      assert GiveRunAt(l, base, addr, count) == Apply(l, GiveRun((addr - base) / PAGE_SIZE, count));
      BalanceExact(l, GiveRun((addr - base) / PAGE_SIZE, count));
    }
  }

  lemma GiveRunAtPage(l: Ledger, base: nat, addr: nat, page: nat, count: nat)
    requires addr == base + page * PAGE_SIZE
    ensures GiveRunAt(l, base, addr, count) == Apply(l, GiveRun(page, count))
    ensures GivesAllocated(l.pool, base, addr, count) == NamesAllocated(l.pool, GiveRun(page, count))
  {
    PageIndex(base, page);
  }

  /** The counter of a frame has taken in every occurrence in `pages`, up to the limit. */
  ghost predicate CountedIn(now: map<nat, nat>, before: map<nat, nat>, pages: seq<nat>, f: nat) {
    && (f in now <==> f in before || f in pages)
    && (f in pages ==> now[f] == Min(REF_LIMIT, Owners(before, f) + multiset(pages)[f]))
    && (f in before && f !in pages ==> now[f] == before[f])
  }

  ghost predicate Counted(now: map<nat, nat>, before: map<nat, nat>, pages: seq<nat>) {
    forall f: nat :: CountedIn(now, before, pages, f)
  }

  lemma CountNext(now: map<nat, nat>, before: map<nat, nat>, pages: seq<nat>, page: nat)
    requires Counted(now, before, pages)
    ensures Counted(RefInc(now, page), before, pages + [page])
  {
    forall f: nat
      ensures CountedIn(RefInc(now, page), before, pages + [page], f)
    {
      assert CountedIn(now, before, pages, f);
    }
  }

  /** How often each page is listed. */
  function Multiplicity(pages: seq<nat>): map<nat, nat> {
    map f | f in pages :: multiset(pages)[f]
  }

  /** Counting the pages one by one adds to every counter the number of times its page is listed. */
  lemma CountedByMultiplicity(now: map<nat, nat>, before: map<nat, nat>, pages: seq<nat>)
    requires Counted(now, before, pages)
    ensures now == RefIncBy(before, Multiplicity(pages))
  {
    forall f: nat
      ensures f in now <==> f in before || f in pages
      ensures f in pages ==> f in now && now[f] == Min(REF_LIMIT, Owners(before, f) + multiset(pages)[f])
      ensures f in before && f !in pages ==> f in now && now[f] == before[f]
    {
      assert CountedIn(now, before, pages, f);
    }
  }

  class Manager {
    const pmm: BitmapAllocator
    var totalPages: nat
    var allocatedPages: int
    var doubleFreeCount: nat
    var cowRefcounts: map<nat, nat>

    ghost function View(): Books
      reads this, pmm
    {
      Books(Ledger(pmm.View(), allocatedPages, doubleFreeCount), cowRefcounts)
    }

    ghost predicate Valid()
      reads this, pmm, pmm.bitmap
    {
      pmm.Valid() && totalPages == pmm.totalPages && Balanced(View().ledger)
    }

    constructor Init(ramBase: nat, ramSize: nat, kernelEnd: nat)
      requires KernelPages(ramBase, kernelEnd) <= ramSize / PAGE_SIZE
      ensures Valid() && fresh(pmm) && fresh(pmm.bitmap) && pmm.baseAddr == ramBase
      ensures var kernel, total := KernelPages(ramBase, kernelEnd), ramSize / PAGE_SIZE;
              View() == Books(Ledger(Pool(total, Interval(kernel, total), kernel), kernel, 0), map[])
    {
      var a := new BitmapAllocator.Init(ramBase, ramSize, kernelEnd);
      pmm := a;
      totalPages := a.totalPages;
      allocatedPages := a.totalPages - a.freePages;
      doubleFreeCount := 0;
      cowRefcounts := map[];
      IntervalSize(KernelPages(ramBase, kernelEnd), ramSize / PAGE_SIZE);
    }

    method AllocPage() returns (page: Option<nat>)
      requires Valid()
      modifies this`allocatedPages, pmm, pmm.bitmap
      ensures Valid() && pmm.bitmap == old(pmm.bitmap)
      ensures View() == old(View()).(ledger := Apply(old(View().ledger), TakeOne))
      ensures page == AllocOne(old(View().ledger.pool)).1
    {
      BalanceExact(View().ledger, TakeOne);
      page := pmm.AllocPage();
      if page.Some? {
        allocatedPages := allocatedPages + 1;
      }
    }

    method AllocPages(count: nat) returns (pages: Option<seq<nat>>)
      requires Valid()
      modifies this`allocatedPages, pmm, pmm.bitmap
      ensures Valid() && pmm.bitmap == old(pmm.bitmap)
      ensures View() == old(View()).(ledger := Apply(old(View().ledger), TakeBatch(count)))
      ensures pages == AllocBatch(old(View().ledger.pool), count).1
    {
      BalanceExact(View().ledger, TakeBatch(count));
      pages := pmm.AllocPages(count);
      if pages.Some? {
        allocatedPages := allocatedPages + count;
      }
    }

    method AllocPagesContiguous(count: nat) returns (page: Option<nat>)
      requires Valid()
      modifies this`allocatedPages, pmm, pmm.bitmap
      ensures Valid() && pmm.bitmap == old(pmm.bitmap)
      ensures View() == old(View()).(ledger := Apply(old(View().ledger), TakeRun(count)))
      ensures page == AllocRun(old(View().ledger.pool), count).1
    {
      BalanceExact(View().ledger, TakeRun(count));
      page := pmm.AllocPagesContiguous(count);
      if page.Some? {
        allocatedPages := allocatedPages + count;
      }
    }

    /** The counter is decremented by `count` whatever the bitmap did with the named pages. */
    method FreePagesContiguous(addr: nat, count: nat)
      requires Valid()
      modifies this`allocatedPages, pmm, pmm.bitmap
      ensures pmm.Valid() && pmm.bitmap == old(pmm.bitmap) && pmm.baseAddr == old(pmm.baseAddr)
      ensures View() == old(View()).(ledger := GiveRunAt(old(View().ledger), pmm.baseAddr, addr, count))
      ensures Valid() <==> GivesAllocated(old(View().ledger.pool), pmm.baseAddr, addr, count)
    {
      ghost var ledger := View().ledger;
      GiveRunAtBalance(ledger, pmm.baseAddr, addr, count);
      pmm.FreePagesContiguous(addr, count);
      allocatedPages := allocatedPages - count;
    }

    /** A contiguous free of the pages from `page` on. */
    method FreePagesFrom(page: nat, count: nat)
      requires Valid()
      modifies this`allocatedPages, pmm, pmm.bitmap
      ensures pmm.Valid() && pmm.bitmap == old(pmm.bitmap)
      ensures View() == old(View()).(ledger := Apply(old(View().ledger), GiveRun(page, count)))
      ensures Valid() <==> NamesAllocated(old(View().ledger.pool), GiveRun(page, count))
    {
      var addr := pmm.baseAddr + page * PAGE_SIZE;
      GiveRunAtPage(View().ledger, pmm.baseAddr, addr, page, count);
      FreePagesContiguous(addr, count);
    }

    /** The first increment counts parent and child; later ones add one, up to the limit. */
    method CowRefInc(page: nat)
      requires Valid()
      modifies this`cowRefcounts
      ensures Valid() && View() == old(View()).(refs := RefInc(old(cowRefcounts), page))
      ensures page in cowRefcounts && cowRefcounts[page] == Min(REF_LIMIT, Owners(old(cowRefcounts), page) + 1)
      ensures cowRefcounts - {page} == old(cowRefcounts) - {page}
    {
      var count := if page in cowRefcounts then cowRefcounts[page] else 1;
      cowRefcounts := cowRefcounts[page := if count < REF_LIMIT then count + 1 else REF_LIMIT];
    }

    method CowRefDec(page: nat) returns (last: bool)
      requires Valid()
      modifies this`cowRefcounts
      ensures Valid() && (View().refs, last) == RefDec(old(cowRefcounts), page)
      ensures View().ledger == old(View().ledger)
    {
      if page in cowRefcounts {
        var count := if cowRefcounts[page] == 0 then 0 else cowRefcounts[page] - 1;
        last := count == 0;
        if last {
          cowRefcounts := cowRefcounts - {page};
        } else {
          cowRefcounts := cowRefcounts[page := count];
        }
      } else {
        last := true;
      }
    }

    /** Give one page to the bitmap and keep the counters in step with the outcome. */
    method ReturnPage(page: nat)
      requires Valid()
      modifies this`allocatedPages, this`doubleFreeCount, pmm, pmm.bitmap
      ensures Valid() && pmm.bitmap == old(pmm.bitmap)
      ensures View() == old(View()).(ledger := Apply(old(View().ledger), GiveOne(page)))
    {
      ghost var ledger := View().ledger;
      BalanceExact(ledger, GiveOne(page));
      PageIndex(pmm.baseAddr, page);
      var outcome := pmm.FreePage(pmm.baseAddr + page * PAGE_SIZE);
      if outcome == Freed {
        allocatedPages := allocatedPages - 1;
      } else if outcome == DoubleFree {
        doubleFreeCount := doubleFreeCount + 1;
      }
      assert View().ledger == Apply(ledger, GiveOne(page));
    }

    method FreePage(page: nat)
      requires Valid()
      modifies this`allocatedPages, this`doubleFreeCount, this`cowRefcounts, pmm, pmm.bitmap
      ensures Valid() && pmm.bitmap == old(pmm.bitmap)
      ensures View() == ReleasePage(old(View()), page)
    {
      var last := CowRefDec(page);
      if last {
        ReturnPage(page);
      }
    }

    /** Fork counts every mapping it shares, a frame mapped twice as two more owners. */
    method CowShareRange(pages: seq<nat>)
      requires Valid()
      modifies this`cowRefcounts
      ensures Valid() && View().ledger == old(View().ledger)
      ensures Counted(cowRefcounts, old(cowRefcounts), pages)
    {
      ghost var before := cowRefcounts;
      assert forall f: nat :: CountedIn(cowRefcounts, before, pages[..0], f);
      for i := 0 to |pages|
        invariant Valid() && View().ledger == old(View().ledger)
        invariant Counted(cowRefcounts, before, pages[..i])
      {
        assert pages[..i + 1] == pages[..i] + [pages[i]];
        CountNext(cowRefcounts, before, pages[..i], pages[i]);
        CowRefInc(pages[i]);
      }
      assert pages[..|pages|] == pages;
    }

    /** Free pages as the counters see them; exact while the books balance. */
    method FreeCount() returns (n: nat)
      requires Valid()
      ensures n == |View().ledger.pool.free|
    {
      n := Max(totalPages - allocatedPages, 0);
    }
  }
}
