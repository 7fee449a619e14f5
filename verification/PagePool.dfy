/**
 What allocation and release of physical pages mean, on the set of free page indices. The class in
 module Bitmap is proved to compute these functions.
 */
module PagePool {
  import opened Prelude

  /** Free page indices of a RAM region of `total` pages, with the search hint. */
  datatype Pool = Pool(total: nat, free: set<nat>, hint: nat)

  ghost predicate Wf(p: Pool) {
    && p.hint <= p.total
    && forall f :: f in p.free ==> f < p.total
  }

  /** Nothing free lies below the hint. */
  ghost predicate HintIsLowerBound(p: Pool) {
    forall f :: f in p.free ==> p.hint <= f
  }

  /** Searches start at the first page of the hint's bitmap word. */
  function ScanStart(hint: nat): (s: nat)
    ensures s <= hint < s + 64
  {
    hint / 64 * 64
  }

  ghost function AtOrAfter(free: set<nat>, start: nat): (s: set<nat>)
    ensures forall f :: f in s <==> f in free && start <= f
  {
    set f | f in free && start <= f
  }

  /** The lowest free page at or after `start`, or the lowest of all if there is none. */
  ghost function Pick(free: set<nat>, start: nat): (f: nat)
    requires free != {}
    ensures f in free
  {
    var ahead := AtOrAfter(free, start);
    if ahead != {} then Least(ahead) else Least(free)
  }

  ghost function Elems(s: seq<nat>): set<nat> {
    set x | x in s
  }

  lemma ElemsSnoc(s: seq<nat>, x: nat)
    ensures Elems(s + [x]) == Elems(s) + {x}
  {
  }

  /** The first `n` picks of a scan that keeps its starting point. */
  ghost function Picks(free: set<nat>, start: nat, n: nat): (r: seq<nat>)
    requires n <= |free|
    ensures |r| == n
    decreases n
  {
    if n == 0 then []
    else
      assert free != {};
      var f := Pick(free, start);
      [f] + Picks(free - {f}, start, n - 1)
  }

  /** Picks are free and no page is picked twice. */
  lemma {:induction false} PicksDiffer(free: set<nat>, start: nat, n: nat)
    requires n <= |free|
    ensures forall x :: x in Picks(free, start, n) ==> x in free
    ensures forall i, j :: 0 <= i < j < n ==> Picks(free, start, n)[i] != Picks(free, start, n)[j]
    decreases n
  {
    if n > 0 {
      PicksDiffer(free - {Pick(free, start)}, start, n - 1);
    }
  }

  lemma PicksCons(free: set<nat>, start: nat, n: nat)
    requires 1 <= n <= |free|
    ensures free != {} && |free - {Pick(free, start)}| == |free| - 1
    ensures Picks(free, start, n) == [Pick(free, start)] + Picks(free - {Pick(free, start)}, start, n - 1)
  {
  }

  lemma ElemsCons(f: nat, rest: seq<nat>)
    ensures Elems([f] + rest) == {f} + Elems(rest)
  {
  }

  ghost predicate Leaves(free: set<nat>, batch: seq<nat>, n: int) {
    |free - Elems(batch)| == n
  }

  lemma LeavesCons(free: set<nat>, f: nat, batch: seq<nat>, n: int)
    requires Leaves(free - {f}, batch, n)
    ensures Leaves(free, [f] + batch, n)
  {
    ElemsCons(f, batch);
    assert free - Elems([f] + batch) == (free - {f}) - Elems(batch);
  }

  lemma {:induction false} PicksLeave(free: set<nat>, start: nat, n: nat)
    requires n <= |free|
    ensures Leaves(free, Picks(free, start, n), |free| - n)
    decreases n
  {
    if n == 0 {
      assert free - Elems(Picks(free, start, n)) == free;
    } else {
      var f := Pick(free, start);
      PicksCons(free, start, n);
      PicksLeave(free - {f}, start, n - 1);
      LeavesCons(free, f, Picks(free - {f}, start, n - 1), |free| - n);
    }
  }

  /** `longer` is the batch of n + 1 pages: `batch` and the next pick from what it leaves. */
  ghost predicate Extends(longer: seq<nat>, batch: seq<nat>, free: set<nat>, start: nat) {
    var left := free - Elems(batch);
    left != {} && longer == batch + [Pick(left, start)]
  }

  lemma ExtendsCons(longer: seq<nat>, batch: seq<nat>, free: set<nat>, start: nat, f: nat)
    requires Extends(longer, batch, free - {f}, start)
    ensures Extends([f] + longer, [f] + batch, free, start)
  {
    ElemsCons(f, batch);
    assert free - Elems([f] + batch) == (free - {f}) - Elems(batch);
  }

  /** Picking one more page extends the batch at its end. */
  lemma {:induction false} PicksSnoc(free: set<nat>, start: nat, n: nat)
    requires n < |free|
    ensures Extends(Picks(free, start, n + 1), Picks(free, start, n), free, start)
    decreases n
  {
    PicksCons(free, start, n + 1);
    if n == 0 {
      assert free - Elems(Picks(free, start, n)) == free;
    } else {
      var f := Pick(free, start);
      PicksCons(free, start, n);
      PicksSnoc(free - {f}, start, n - 1);
      ExtendsCons(Picks(free - {f}, start, n), Picks(free - {f}, start, n - 1), free, start, f);
    }
  }

  /** `count` consecutive free pages starting at `start`. */
  ghost predicate IsRun(free: set<nat>, start: nat, count: nat) {
    forall i :: start <= i < start + count ==> i in free
  }

  /** All pages where a run of `count` free pages starts, at or after `from`. */
  ghost function RunStarts(free: set<nat>, from: nat, count: nat): (s: set<nat>)
    requires count >= 1
    ensures forall x :: x in s <==> from <= x && IsRun(free, x, count)
  {
    assert forall x: nat :: IsRun(free, x, count) ==> x in free;
    set x | x in free && from <= x && IsRun(free, x, count)
  }

  // ---------------------------------------------------------------- allocation and release

  ghost function AllocOne(p: Pool): (r: (Pool, Option<nat>))
    ensures r.1.None? <==> p.free == {}
    ensures r.1.Some? ==> r.1.value in p.free && r.0.free == p.free - {r.1.value}
    ensures Wf(p) ==> Wf(r.0)
  {
    if p.free == {} then (p, None)
    else
      var f := Pick(p.free, ScanStart(p.hint));
      (Pool(p.total, p.free - {f}, f + 1), Some(f))
  }

  ghost function AllocBatch(p: Pool, count: nat): (r: (Pool, Option<seq<nat>>))
    ensures r.1.None? <==> |p.free| < count
    ensures r.1.None? ==> r.0 == p
    ensures r.1.Some? ==> |r.1.value| == count && r.0.free == p.free - Elems(r.1.value)
    ensures Wf(p) ==> Wf(r.0)
  {
    if count == 0 then (p, Some([]))
    else if |p.free| < count then (p, None)
    else
      var r := Picks(p.free, ScanStart(p.hint), count);
      PicksDiffer(p.free, ScanStart(p.hint), count);
      assert r[count - 1] in r;
      (Pool(p.total, p.free - Elems(r), r[count - 1] + 1), Some(r))
  }

  /** Where a contiguous allocation of two or more pages lands. */
  ghost function RunChoice(p: Pool, count: nat): Option<nat>
    requires count >= 1
  {
    if RunStarts(p.free, p.hint, count) != {} then Some(Least(RunStarts(p.free, p.hint, count)))
    else if RunStarts(p.free, 0, count) != {} then Some(Least(RunStarts(p.free, 0, count)))
    else None
  }

  ghost function AllocRun(p: Pool, count: nat): (r: (Pool, Option<nat>))
    ensures r.1.None? ==> r.0 == p
    ensures r.1.Some? ==> count >= 1 && IsRun(p.free, r.1.value, count)
                          && r.0.free == p.free - Interval(r.1.value, r.1.value + count)
    ensures Wf(p) ==> Wf(r.0)
  {
    if count == 0 then (p, None)
    else if count == 1 then
      var r := AllocOne(p);
      assert r.1.Some? ==> Interval(r.1.value, r.1.value + 1) == {r.1.value};
      r
    else
      match RunChoice(p, count)
      case None => (p, None)
      case Some(start) =>
        assert start + count - 1 in p.free;
        (Pool(p.total, p.free - Interval(start, start + count), start + count), Some(start))
  }

  datatype FreeOutcome = Freed | DoubleFree | OutOfRange

  ghost function FreeOne(p: Pool, page: nat): (r: (Pool, FreeOutcome))
    ensures r.1 == Freed <==> page < p.total && page !in p.free
    ensures r.1 == Freed ==> r.0.free == p.free + {page} && |r.0.free| == |p.free| + 1 && r.0.hint <= page
    ensures r.1 != Freed ==> r.0 == p && (r.1 == DoubleFree <==> page < p.total)
    ensures Wf(p) ==> Wf(r.0)
  {
    if page >= p.total then (p, OutOfRange)
    else if page in p.free then (p, DoubleFree)
    else (Pool(p.total, p.free + {page}, Min(p.hint, page)), Freed)
  }

  ghost function FreeRun(p: Pool, start: nat, count: nat): (r: Pool)
    ensures Wf(p) ==> Wf(r)
  {
    Pool(p.total, p.free + Interval(start, Min(start + count, p.total)), Min(p.hint, start))
  }

  /** Frees by address: a frame below the base is none of the pool's pages. */
  ghost function FreeRunAt(p: Pool, base: nat, addr: nat, count: nat): (r: Pool)
    ensures Wf(p) ==> Wf(r)
  {
    if addr < base then p else FreeRun(p, (addr - base) / PAGE_SIZE, count)
  }

  lemma FreeRunAtPage(p: Pool, base: nat, addr: nat, page: nat, count: nat)
    requires addr >= base && page == (addr - base) / PAGE_SIZE
    ensures FreeRunAt(p, base, addr, count) == FreeRun(p, page, count)
  {
  }

  ghost function FreeOneAt(p: Pool, base: nat, addr: nat): (r: (Pool, FreeOutcome))
    ensures Wf(p) ==> Wf(r.0)
  {
    if addr < base then (p, OutOfRange) else FreeOne(p, (addr - base) / PAGE_SIZE)
  }

  /** Page k of the pool is where its 4096 bytes are; addresses below the base are nowhere. */
  lemma FreesByAddress(p: Pool, base: nat, k: nat, within: nat, count: nat, addr: nat)
    requires within < 4096
    ensures FreeOneAt(p, base, base + 4096 * k + within) == FreeOne(p, k)
    ensures FreeRunAt(p, base, base + 4096 * k + within, count) == FreeRun(p, k, count)
    ensures addr < base ==> FreeOneAt(p, base, addr) == (p, OutOfRange) && FreeRunAt(p, base, addr, count) == p
  {
    assert (4096 * k + within) / 4096 == k;
  }

  // ---------------------------------------------------------------- which pages are returned

  /** A contiguous request is served exactly when such a run exists anywhere in RAM. */
  lemma RunServedIffExists(p: Pool, count: nat)
    requires count >= 1
    ensures AllocRun(p, count).1.Some? <==> exists s: nat :: IsRun(p.free, s, count)
  {
    if count == 1 {
      if p.free != {} {
        var f :| f in p.free;
        assert IsRun(p.free, f, 1);
      }
      forall s: nat | IsRun(p.free, s, 1)
        ensures p.free != {}
      {
        assert s in p.free;
      }
    } else {
      forall s: nat | IsRun(p.free, s, count)
        ensures RunStarts(p.free, 0, count) != {}
      {
        assert s in RunStarts(p.free, 0, count);
      }
    }
  }

  /** Two or more pages: the lowest run at or after the hint, else the lowest run of all. */
  lemma RunIsLowest(p: Pool, count: nat, s: nat)
    requires count >= 2 && AllocRun(p, count).1.Some?
    requires IsRun(p.free, s, count)
    ensures var start := AllocRun(p, count).1.value;
            && (p.hint <= start ==> p.hint <= s ==> start <= s)
            && (start < p.hint ==> s < p.hint && start <= s)
  {
    assert s in RunStarts(p.free, 0, count);
    assert p.hint <= s ==> s in RunStarts(p.free, p.hint, count);
  }

  /** While the hint is a lower bound, single allocation returns the lowest free page. */
  lemma OneIsLowest(p: Pool)
    requires HintIsLowerBound(p) && p.free != {}
    ensures AllocOne(p).1 == Some(Least(p.free))
    ensures HintIsLowerBound(AllocOne(p).0)
  {
    assert AtOrAfter(p.free, ScanStart(p.hint)) == p.free;
  }

  /** `r` lists the |r| lowest members of `free`, in ascending order. */
  ghost predicate ListsLowest(free: set<nat>, r: seq<nat>) {
    && (forall i, j :: 0 <= i < j < |r| ==> r[i] < r[j])
    && (forall x :: x in r ==> x in free)
    && (forall x, f :: x in r && f in free && f !in r ==> x < f)
  }

  lemma ListsLowestCons(free: set<nat>, f: nat, rest: seq<nat>)
    requires f in free && forall x :: x in free ==> f <= x
    requires ListsLowest(free - {f}, rest)
    ensures ListsLowest(free, [f] + rest)
  {
    var r := [f] + rest;
    forall i, j | 0 <= i < j < |r|
      ensures r[i] < r[j]
    {
      assert rest[j - 1] in rest;
      assert i > 0 ==> r[i] == rest[i - 1];
    }
  }

  /** While nothing free lies below `start`, a batch is the ascending list of the lowest pages. */
  lemma {:induction false} PicksAreLowest(free: set<nat>, start: nat, n: nat)
    requires n <= |free|
    requires forall f :: f in free ==> start <= f
    ensures ListsLowest(free, Picks(free, start, n))
    decreases n
  {
    if n > 0 {
      var f := Pick(free, start);
      assert AtOrAfter(free, start) == free;
      PicksAreLowest(free - {f}, start, n - 1);
      ListsLowestCons(free, f, Picks(free - {f}, start, n - 1));
    }
  }

  lemma BatchIsLowest(p: Pool, count: nat)
    requires HintIsLowerBound(p) && 1 <= count <= |p.free|
    ensures ListsLowest(p.free, AllocBatch(p, count).1.value)
    ensures HintIsLowerBound(AllocBatch(p, count).0)
  {
    PicksAreLowest(p.free, ScanStart(p.hint), count);
    var r := AllocBatch(p, count).1.value;
    assert r[count - 1] in r;
  }

  /**
   A contiguous allocation of several pages keeps the hint a lower bound exactly when the lowest
   free page starts a long enough run.
   */
  lemma RunHintExact(p: Pool, count: nat)
    requires HintIsLowerBound(p) && count >= 2 && AllocRun(p, count).1.Some?
    ensures p.free != {}
    ensures HintIsLowerBound(AllocRun(p, count).0) <==> IsRun(p.free, Least(p.free), count)
  {
    var start := AllocRun(p, count).1.value;
    var q := AllocRun(p, count).0;
    assert start in p.free;
    var low := Least(p.free);
    assert forall f :: f in q.free <==> f in p.free && !(start <= f < start + count);
    if IsRun(p.free, low, count) {
      RunIsLowest(p, count, low);
    } else {
      assert low < start && low in q.free;
    }
  }

  lemma HoleBelowRun(p: Pool)
    requires p.hint == 0 && 0 in p.free && 1 !in p.free && 2 in p.free && 3 in p.free
    ensures HintIsLowerBound(p) && AllocRun(p, 2).1.Some? && !HintIsLowerBound(AllocRun(p, 2).0)
  {
    assert IsRun(p.free, 2, 2);
    RunServedIffExists(p, 2);
    LeastUnique(p.free, 0);
    RunHintExact(p, 2);
  }

  /** A four-page RAM in which a two-page allocation leaves page 0 free below the new hint. */
  lemma RunCanPassFreePages()
    ensures exists p :: p == Pool(4, {0, 2, 3}, 0) && HintIsLowerBound(p)
                        && AllocRun(p, 2).1.Some? && !HintIsLowerBound(AllocRun(p, 2).0)
  {
    HoleBelowRun(Pool(4, {0, 2, 3}, 0));
  }

  // ---------------------------------------------------------------- the global counters, over runs

  /** The pool together with ALLOCATED_PAGES and DOUBLE_FREE_COUNT. */
  datatype Ledger = Ledger(pool: Pool, inUse: int, doubleFrees: nat)

  datatype Op =
    | TakeOne
    | TakeBatch(count: nat)
    | TakeRun(count: nat)
    | GiveOne(page: nat)
    | GiveRun(start: nat, count: nat)

  ghost function Apply(l: Ledger, op: Op): Ledger {
    match op
    case TakeOne =>
      var r := AllocOne(l.pool);
      l.(pool := r.0, inUse := l.inUse + if r.1.Some? then 1 else 0)
    case TakeBatch(count) =>
      var r := AllocBatch(l.pool, count);
      l.(pool := r.0, inUse := l.inUse + if r.1.Some? then count else 0)
    case TakeRun(count) =>
      var r := AllocRun(l.pool, count);
      l.(pool := r.0, inUse := l.inUse + if r.1.Some? then count else 0)
    case GiveOne(page) =>
      var r := FreeOne(l.pool, page);
      l.(pool := r.0,
         inUse := l.inUse - (if r.1 == Freed then 1 else 0),
         doubleFrees := l.doubleFrees + if r.1 == DoubleFree then 1 else 0)
    case GiveRun(start, count) =>
      l.(pool := FreeRun(l.pool, start, count), inUse := l.inUse - count)
  }

  ghost function ApplyAll(l: Ledger, ops: seq<Op>): Ledger
    decreases |ops|
  {
    if ops == [] then l else ApplyAll(Apply(l, ops[0]), ops[1..])
  }

  ghost predicate Balanced(l: Ledger) {
    Wf(l.pool) && l.pool.total - l.inUse == |l.pool.free|
  }

  /** A contiguous free names only pages that are in range and allocated. */
  ghost predicate NamesAllocated(p: Pool, op: Op) {
    op.GiveRun? && op.count > 0 ==>
      op.start + op.count <= p.total && Interval(op.start, op.start + op.count) !! p.free
  }

  lemma BatchBalance(p: Pool, count: nat)
    requires count <= |p.free|
    ensures |AllocBatch(p, count).0.free| == |p.free| - count
  {
    PicksLeave(p.free, ScanStart(p.hint), count);
  }

  /** A batch consists of distinct free pages. */
  lemma BatchIsFree(p: Pool, count: nat)
    requires AllocBatch(p, count).1.Some?
    ensures var r := AllocBatch(p, count).1.value;
            && (forall x :: x in r ==> x in p.free)
            && forall i, j :: 0 <= i < j < |r| ==> r[i] != r[j]
  {
    if count > 0 {
      PicksDiffer(p.free, ScanStart(p.hint), count);
    }
  }

  lemma RunBalance(p: Pool, count: nat)
    requires AllocRun(p, count).1.Some?
    ensures |AllocRun(p, count).0.free| == |p.free| - count
  {
    var start := AllocRun(p, count).1.value;
    var run := Interval(start, start + count);
    IntervalSize(start, start + count);
    assert run <= p.free;
    assert |p.free - run| == |p.free| - |run|;
  }

  lemma GiveRunBalance(p: Pool, start: nat, count: nat)
    ensures |FreeRun(p, start, count).free| == |p.free| + count
       <==> NamesAllocated(p, GiveRun(start, count))
  {
    var named := Interval(start, Min(start + count, p.total));
    var added := named - p.free;
    assert p.free + named == p.free + added;
    assert |p.free + added| == |p.free| + |added|;
    SubsetSize(added, named);
    if start <= p.total {
      IntervalSize(start, Min(start + count, p.total));
    } else {
      assert named == {};
    }
    if NamesAllocated(p, GiveRun(start, count)) {
      assert added == named;
    }
  }

  /**
   From a balanced ledger one operation leaves the ledger balanced exactly when a contiguous free,
   if that is the operation, names allocated pages only.
   */
  lemma BalanceExact(l: Ledger, op: Op)
    requires Balanced(l)
    ensures Balanced(Apply(l, op)) <==> NamesAllocated(l.pool, op)
  {
    match op
    case TakeOne =>
    case TakeBatch(count) =>
      if count <= |l.pool.free| {
        BatchBalance(l.pool, count);
      }
    case TakeRun(count) =>
      if AllocRun(l.pool, count).1.Some? {
        RunBalance(l.pool, count);
      }
    case GiveOne(page) =>
    case GiveRun(start, count) =>
      GiveRunBalance(l.pool, start, count);
  }

  ghost predicate RunNamesAllocated(l: Ledger, ops: seq<Op>)
    decreases |ops|
  {
    ops == [] || (NamesAllocated(l.pool, ops[0]) && RunNamesAllocated(Apply(l, ops[0]), ops[1..]))
  }

  /** Every run whose contiguous frees name allocated pages keeps total = allocated + free. */
  lemma {:induction false} BalancedThroughout(l: Ledger, ops: seq<Op>)
    requires Balanced(l) && RunNamesAllocated(l, ops)
    ensures Balanced(ApplyAll(l, ops))
    ensures ApplyAll(l, ops).pool.total == l.pool.total
    decreases |ops|
  {
    if ops != [] {
      BalanceExact(l, ops[0]);
      BalancedThroughout(Apply(l, ops[0]), ops[1..]);
    }
  }

  ghost predicate NoWideRun(ops: seq<Op>) {
    forall op :: op in ops ==> op.TakeRun? ==> op.count <= 1
  }

  /** In runs without a contiguous allocation of two or more pages the hint bounds the free pages. */
  lemma {:induction false} HintBoundsThroughout(l: Ledger, ops: seq<Op>)
    requires HintIsLowerBound(l.pool) && NoWideRun(ops)
    ensures HintIsLowerBound(ApplyAll(l, ops).pool)
    decreases |ops|
  {
    if ops != [] {
      var op := ops[0];
      assert op in ops;
      if op.TakeOne? || (op.TakeRun? && op.count == 1) {
        if l.pool.free != {} {
          OneIsLowest(l.pool);
        }
      } else if op.TakeBatch? && 1 <= op.count <= |l.pool.free| {
        BatchIsLowest(l.pool, op.count);
      }
      HintBoundsThroughout(Apply(l, op), ops[1..]);
    }
  }

  /** A double or out-of-range single free changes no page and no allocation count. */
  lemma BadFreeIsHarmless(l: Ledger, page: nat)
    requires page >= l.pool.total || page in l.pool.free
    ensures var m := Apply(l, GiveOne(page));
            && m.pool == l.pool && m.inUse == l.inUse
            && (m.doubleFrees == l.doubleFrees + 1 <==> page < l.pool.total)
  {
  }
}
