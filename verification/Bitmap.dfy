/**
 The bitmap page allocator: 64 pages to a word, a cached free count and a search hint, mutated in
 place by scanning loops. Every method is proved to compute the matching function of PagePool.
 */
module Bitmap {
  import opened Prelude
  import opened Words
  import opened PagePool

  // ---------------------------------------------------------------- words as a set of pages

  predicate IsFreeIn(words: seq<Word>, page: nat) {
    page / 64 < |words| && Bit(words[page / 64], page % 64)
  }

  function MarkUsedIn(words: seq<Word>, page: nat): (r: seq<Word>)
    ensures |r| == |words|
  {
    if page / 64 < |words|
    then words[page / 64 := ClearBit(words[page / 64], page % 64)]
    else words
  }

  function MarkFreeIn(words: seq<Word>, page: nat): (r: seq<Word>)
    ensures |r| == |words|
  {
    if page / 64 < |words| then
      Pow2At64();
      SetBitBounded(words[page / 64], page % 64, 64);
      words[page / 64 := SetBit(words[page / 64], page % 64)]
    else words
  }

  lemma MarkUsedBits(words: seq<Word>, page: nat, q: nat)
    ensures IsFreeIn(MarkUsedIn(words, page), q) == (q != page && IsFreeIn(words, q))
  {
    if page / 64 == q / 64 < |words| {
      ClearBitBits(words[page / 64], page % 64, q % 64);
    }
  }

  lemma MarkFreeBits(words: seq<Word>, page: nat, q: nat)
    ensures IsFreeIn(MarkFreeIn(words, page), q)
         == ((q == page && page / 64 < |words|) || IsFreeIn(words, q))
  {
    if page / 64 == q / 64 < |words| {
      SetBitBits(words[page / 64], page % 64, q % 64);
    }
  }

  /** The set bits of the bitmap are exactly the free pages, all of them below `total`. */
  ghost predicate Represents(words: seq<Word>, total: nat, free: set<nat>) {
    && (forall q: nat {:trigger IsFreeIn(words, q)} :: IsFreeIn(words, q) <==> q in free)
    && (forall q :: q in free ==> q < total)
  }

  lemma MarkUsedPages(words: seq<Word>, page: nat)
    ensures forall q: nat :: IsFreeIn(MarkUsedIn(words, page), q) == (q != page && IsFreeIn(words, q))
  {
    forall q: nat
      ensures IsFreeIn(MarkUsedIn(words, page), q) == (q != page && IsFreeIn(words, q))
    {
      MarkUsedBits(words, page, q);
    }
  }

  lemma MarkFreePages(words: seq<Word>, page: nat)
    ensures forall q: nat :: IsFreeIn(MarkFreeIn(words, page), q)
                          == ((q == page && page / 64 < |words|) || IsFreeIn(words, q))
  {
    forall q: nat
      ensures IsFreeIn(MarkFreeIn(words, page), q)
           == ((q == page && page / 64 < |words|) || IsFreeIn(words, q))
    {
      MarkFreeBits(words, page, q);
    }
  }

  lemma LowestBitInWord(w: Word)
    requires w != 0
    ensures TrailingZeros(w) < 64
  {
    if TrailingZeros(w) >= 64 {
      Pow2At64();
      HighBitsClear(w, 64, TrailingZeros(w));
      assert false;
    }
  }

  /** A non-zero word holds a free page, at its lowest set bit. */
  lemma WordHit(words: seq<Word>, total: nat, free: set<nat>, w: nat)
    requires Represents(words, total, free) && w < |words| && words[w] != 0
    ensures var page := w * 64 + TrailingZeros(words[w]);
            page in free && NoneIn(free, w * 64, page)
  {
    LowestBitInWord(words[w]);
    var b := TrailingZeros(words[w]);
    var page := w * 64 + b;
    assert IsFreeIn(words, page);
    forall q | q in free
      ensures !(w * 64 <= q < page)
    {
      var isFree := IsFreeIn(words, q);
      if w * 64 <= q < page {
        assert false;
      }
    }
  }

  lemma WordMiss(words: seq<Word>, total: nat, free: set<nat>, w: nat)
    requires Represents(words, total, free) && w < |words| && words[w] == 0
    ensures NoneIn(free, w * 64, w * 64 + 64)
  {
    forall q | q in free
      ensures !(w * 64 <= q < w * 64 + 64)
    {
      var isFree := IsFreeIn(words, q);
      if w * 64 <= q < w * 64 + 64 {
        ZeroBits(q % 64);
        assert false;
      }
    }
  }

  /** Nothing free lies in [lo, hi). */
  ghost predicate NoneIn(free: set<nat>, lo: nat, hi: nat) {
    forall q :: q in free ==> !(lo <= q < hi)
  }

  /**
   The scan that began at page `start` has reached word `w` without passing a free page; `wrapped`
   says that it has been to the end of RAM and continues from page 0.
   */
  ghost predicate ScanReached(free: set<nat>, start: nat, w: nat, wrapped: bool) {
    if wrapped then AtOrAfter(free, start) == {} && NoneIn(free, 0, w * 64)
    else start <= w * 64 && NoneIn(free, start, w * 64)
  }

  lemma ScanStaysReached(free: set<nat>, page: nat, start: nat, w: nat, wrapped: bool)
    requires ScanReached(free, start, w, wrapped)
    ensures ScanReached(free - {page}, start, w, wrapped)
  {
    assert AtOrAfter(free - {page}, start) == AtOrAfter(free, start) - {page};
  }

  lemma ScanPassesWord(free: set<nat>, start: nat, w: nat, wrapped: bool)
    requires ScanReached(free, start, w, wrapped) && NoneIn(free, w * 64, w * 64 + 64)
    ensures ScanReached(free, start, w + 1, wrapped)
  {
  }

  lemma ScanWraps(free: set<nat>, total: nat, start: nat, words: nat)
    requires ScanReached(free, start, words, false)
    requires total <= words * 64 && forall q :: q in free ==> q < total
    ensures ScanReached(free, start, 0, true)
  {
  }

  lemma ScanEnds(free: set<nat>, start: nat, w: nat)
    requires ScanReached(free, start, w, true) && start == w * 64
    ensures free == {}
  {
    assert forall q :: q in free ==> q in AtOrAfter(free, start);
  }

  lemma ScanPicks(free: set<nat>, start: nat, w: nat, wrapped: bool, page: nat)
    requires ScanReached(free, start, w, wrapped)
    requires page in free && w * 64 <= page && NoneIn(free, w * 64, page)
    ensures Pick(free, start) == page
  {
    if wrapped {
      LeastUnique(free, page);
    } else {
      LeastUnique(AtOrAfter(free, start), page);
    }
  }

  lemma PickedOne(p: Pool, page: nat)
    requires p.free != {} && page == Pick(p.free, p.hint / 64 * 64)
    ensures AllocOne(p) == (Pool(p.total, p.free - {page}, page + 1), Some(page))
  {
  }

  /** The batch so far is a prefix of the picks from `all`, and the rest is still free. */
  ghost predicate Drawn(free: set<nat>, all: set<nat>, start: nat, batch: seq<nat>) {
    |batch| <= |all| && batch == Picks(all, start, |batch|) && free == all - Elems(batch)
  }

  lemma DrawnNext(free: set<nat>, all: set<nat>, start: nat, batch: seq<nat>)
    requires Drawn(free, all, start, batch) && |batch| < |all|
    ensures free != {}
    ensures var p := Pick(free, start); Drawn(free - {p}, all, start, batch + [p])
  {
    PicksSnoc(all, start, |batch|);
    ElemsSnoc(batch, Pick(free, start));
  }

  lemma DrawnAll(all: set<nat>, start: nat, batch: seq<nat>)
    requires Drawn({}, all, start, batch)
    ensures |batch| == |all|
  {
    PicksLeave(all, start, |batch|);
  }

  lemma DrawnBatch(p: Pool, count: nat, free: set<nat>, batch: seq<nat>)
    requires 1 <= count == |batch| && Drawn(free, p.free, ScanStart(p.hint), batch)
    ensures AllocBatch(p, count) == (Pool(p.total, free, batch[count - 1] + 1), Some(batch))
  {
  }

  /** Fewer free pages than requested: no run that long exists. */
  lemma ShortOfRun(p: Pool, count: nat)
    requires count >= 1 && |p.free| < count
    ensures AllocRun(p, count) == (p, None)
  {
    if AllocRun(p, count).1.Some? {
      var start := AllocRun(p, count).1.value;
      IntervalSize(start, start + count);
      SubsetSize(Interval(start, start + count), p.free);
      assert false;
    }
  }

  /** The first i pages of a run from `start` are back, as far as they exist. */
  ghost predicate GivenBack(now: set<nat>, before: set<nat>, start: nat, i: nat, total: nat) {
    now == before + Interval(start, Min(start + i, total))
  }

  lemma GivenNone(before: set<nat>, start: nat, total: nat)
    ensures GivenBack(before, before, start, 0, total)
  {
    assert Interval(start, Min(start, total)) == {};
  }

  lemma FreeRunStep(before: set<nat>, now: set<nat>, start: nat, i: nat, total: nat)
    requires GivenBack(now, before, start, i, total)
    ensures GivenBack(now + InRange(start + i, total), before, start, i + 1, total)
  {
    if start + i < total {
      IntervalSnoc(start, start + i);
    }
  }

  ghost function InRange(page: nat, total: nat): set<nat> {
    if page < total then {page} else {}
  }

  lemma RunTaken(p: Pool, count: nat, start: nat)
    requires count >= 2 && RunChoice(p, count) == Some(start)
    ensures IsRun(p.free, start, count)
    ensures AllocRun(p, count)
         == (Pool(p.total, p.free - Interval(start, start + count), start + count), Some(start))
  {
  }

  // ---------------------------------------------------------------- the allocator

  /** The pages that begin before the end of the kernel. */
  function KernelPages(base: nat, kernelEnd: nat): (n: nat)
    ensures forall p: nat :: p < n <==> base + p * 4096 < kernelEnd
  {
    (Max(kernelEnd - base, 0) + PAGE_SIZE - 1) / PAGE_SIZE
  }

  method AllFree(size: nat) returns (words: array<Word>)
    ensures fresh(words) && words.Length == size
    ensures forall q: nat :: IsFreeIn(words[..], q) == (q / 64 < size)
  {
    words := new Word[size];
    var i := 0;
    while i < size
      invariant 0 <= i <= size
      invariant forall k :: 0 <= k < i ==> words[k] == ALL_ONES
    {
      words[i] := ALL_ONES;
      i := i + 1;
    }
    forall q: nat
      ensures IsFreeIn(words[..], q) == (q / 64 < size)
    {
      Pow2At64();
      OnesBits(64, q % 64);
    }
  }

  method UseLowest(words: array<Word>, count: nat)
    modifies words
    ensures forall q: nat :: IsFreeIn(words[..], q) == (count <= q && IsFreeIn(old(words[..]), q))
  {
    var i := 0;
    while i < count
      invariant 0 <= i <= count
      invariant forall q: nat :: IsFreeIn(words[..], q) == (i <= q && IsFreeIn(old(words[..]), q))
    {
      ghost var before := words[..];
      if i / 64 < words.Length {
        words[i / 64] := ClearBit(words[i / 64], i % 64);
      }
      assert words[..] == MarkUsedIn(before, i);
      forall q: nat
        ensures IsFreeIn(words[..], q) == (q != i && IsFreeIn(before, q))
      {
        MarkUsedBits(before, i, q);
      }
      i := i + 1;
    }
  }

  method ClearTail(words: array<Word>, total: nat)
    requires words.Length == (total + 63) / 64
    modifies words
    ensures forall q: nat :: IsFreeIn(words[..], q) == (q < total && IsFreeIn(old(words[..]), q))
  {
    var remaining := total % 64;
    if remaining != 0 {
      var last := words.Length - 1;
      words[last] := LowBits(words[last], remaining);
      forall q: nat
        ensures IsFreeIn(words[..], q) == (q < total && IsFreeIn(old(words[..]), q))
      {
        if q / 64 == last {
          LowBitsBits(old(words[..])[last], remaining, q % 64);
        }
      }
    }
  }

  class BitmapAllocator {
    var bitmap: array<Word>
    var baseAddr: nat
    var totalPages: nat
    var freePages: nat
    var nextFreeHint: nat

    ghost var free: set<nat>

    ghost function View(): Pool
      reads this
    {
      Pool(totalPages, free, nextFreeHint)
    }

    ghost predicate Valid()
      reads this, bitmap
    {
      && bitmap.Length == (totalPages + 63) / 64
      && Represents(bitmap[..], totalPages, free)
      && freePages == |free|
      && nextFreeHint <= totalPages
    }

    /** Pages at and past the end of the kernel are free, pages before it used. */
    constructor Init(base: nat, size: nat, kernelEnd: nat)
      requires KernelPages(base, kernelEnd) <= size / PAGE_SIZE
      ensures Valid() && fresh(bitmap)
      ensures baseAddr == base
      ensures View() == Pool(size / PAGE_SIZE,
                             Interval(KernelPages(base, kernelEnd), size / PAGE_SIZE),
                             KernelPages(base, kernelEnd))
    {
      var total := size / PAGE_SIZE;
      var kernelPages := KernelPages(base, kernelEnd);
      var words := AllFree((total + 63) / 64);
      UseLowest(words, kernelPages);
      ClearTail(words, total);
      baseAddr := base;
      totalPages := total;
      freePages := total - kernelPages;
      nextFreeHint := kernelPages;
      bitmap := words;
      IntervalSize(kernelPages, total);
      free := Interval(kernelPages, total);
    }

    /** Of all pages only this one stops being free; a page past the bitmap changes nothing. */
    method MarkUsed(page: nat)
      modifies bitmap
      ensures forall q: nat :: IsFreeIn(bitmap[..], q) == (q != page && IsFreeIn(old(bitmap[..]), q))
    {
      ghost var before := bitmap[..];
      if page / 64 < bitmap.Length {
        bitmap[page / 64] := ClearBit(bitmap[page / 64], page % 64);
      }
      assert bitmap[..] == MarkUsedIn(before, page);
      MarkUsedPages(before, page);
    }

    /** Of all pages only this one becomes free, if the bitmap has a bit for it. */
    method MarkFree(page: nat)
      modifies bitmap
      ensures forall q: nat :: IsFreeIn(bitmap[..], q)
                            == ((q == page && page / 64 < bitmap.Length) || IsFreeIn(old(bitmap[..]), q))
    {
      ghost var before := bitmap[..];
      if page / 64 < bitmap.Length {
        Pow2At64();
        SetBitBounded(bitmap[page / 64], page % 64, 64);
        bitmap[page / 64] := SetBit(bitmap[page / 64], page % 64);
      }
      assert bitmap[..] == MarkFreeIn(before, page);
      MarkFreePages(before, page);
    }

    /** In a valid allocator the bit of a page tells whether it is in the free set. */
    predicate IsFree(page: nat)
      reads this, bitmap
      ensures Valid() ==> (IsFree(page) <==> page in free)
    {
      assert IsFreeIn(bitmap[..], page) == (page / 64 < bitmap.Length && Bit(bitmap[page / 64], page % 64));
      page / 64 < bitmap.Length && Bit(bitmap[page / 64], page % 64)
    }

    /** Take one known-free page out of the bitmap. */
    method Claim(page: nat)
      requires Valid() && page in free
      modifies this`freePages, this`free, bitmap
      ensures Valid() && free == old(free) - {page}
    {
      MarkUsed(page);
      freePages := freePages - 1;
      free := free - {page};
    }

    /** Put one allocated page back into the bitmap. */
    method Return(page: nat)
      requires Valid() && page < totalPages && page !in free
      modifies this`freePages, this`free, bitmap
      ensures Valid() && free == old(free) + {page}
    {
      MarkFree(page);
      freePages := freePages + 1;
      free := free + {page};
    }

    /** Take the lowest free page of a non-zero word; it is the next pick of the scan. */
    method TakeFromWord(w: nat, ghost start: nat, ghost wrapped: bool) returns (page: nat)
      requires Valid() && w < bitmap.Length && bitmap[w] != 0
      requires ScanReached(free, start, w, wrapped)
      modifies this`freePages, this`free, bitmap
      ensures Valid() && ScanReached(free, start, w, wrapped)
      ensures old(free) != {} && page == Pick(old(free), start) && page < totalPages
      ensures free == old(free) - {page}
    {
      WordHit(bitmap[..], totalPages, free, w);
      page := w * 64 + TrailingZeros(bitmap[w]);
      ScanPicks(free, start, w, wrapped, page);
      ScanStaysReached(free, page, start, w, wrapped);
      Claim(page);
    }

    /** Scan words [lo, hi) for the first free page. */
    method TakeFromWords(lo: nat, hi: nat, ghost start: nat, ghost wrapped: bool)
      returns (page: Option<nat>)
      requires Valid() && lo <= hi <= bitmap.Length && ScanReached(free, start, lo, wrapped)
      modifies this`freePages, this`free, bitmap
      ensures Valid()
      ensures page.None? ==> free == old(free) && ScanReached(free, start, hi, wrapped)
      ensures page.Some? ==> old(free) != {} && page.value == Pick(old(free), start)
                             && page.value < totalPages && free == old(free) - {page.value}
    {
      for w := lo to hi
        invariant Valid() && free == old(free) && ScanReached(free, start, w, wrapped)
      {
        if bitmap[w] != 0 {
          var p := TakeFromWord(w, start, wrapped);
          return Some(p);
        }
        WordMiss(bitmap[..], totalPages, free, w);
        ScanPassesWord(free, start, w, wrapped);
      }
      page := None;
    }

    /** Scan from word `from` to the end, then from the start. */
    method TakeFromAll(from: nat) returns (page: Option<nat>)
      requires Valid() && from <= bitmap.Length
      modifies this`freePages, this`free, bitmap
      ensures Valid()
      ensures page.None? ==> free == old(free) == {}
      ensures page.Some? ==> old(free) != {} && page.value == Pick(old(free), from * 64)
                             && page.value < totalPages && free == old(free) - {page.value}
    {
      page := TakeFromWords(from, bitmap.Length, from * 64, false);
      if page.None? {
        ScanWraps(free, totalPages, from * 64, bitmap.Length);
        page := TakeFromWords(0, from, from * 64, true);
        if page.None? {
          ScanEnds(free, from * 64, from);
        }
      }
    }

    method AllocPage() returns (page: Option<nat>)
      requires Valid()
      modifies this`freePages, this`nextFreeHint, this`free, bitmap
      ensures Valid()
      ensures (View(), page) == AllocOne(old(View()))
    {
      ghost var before := View();
      page := TakeFromAll(nextFreeHint / 64);
      if page.Some? {
        PickedOne(before, page.value);
        nextFreeHint := page.value + 1;
      }
    }

    /** Draw pages from one word until it is empty or the batch is complete. */
    method DrainWord(w: nat, ghost start: nat, ghost wrapped: bool,
                     ghost all: set<nat>, count: nat, got: seq<nat>)
      returns (batch: seq<nat>)
      requires Valid() && w < bitmap.Length && ScanReached(free, start, w, wrapped)
      requires |got| < count <= |all| && Drawn(free, all, start, got)
      modifies this`freePages, this`free, bitmap
      ensures Valid() && ScanReached(free, start, w, wrapped)
      ensures |batch| <= count && Drawn(free, all, start, batch)
      ensures |batch| < count ==> bitmap[w] == 0
      ensures |batch| == count ==> batch[count - 1] < totalPages
    {
      batch := got;
      while bitmap[w] != 0
        invariant Valid() && ScanReached(free, start, w, wrapped)
        invariant |batch| < count && Drawn(free, all, start, batch)
        decreases count - |batch|
      {
        var p := DrawFromWord(w, start, wrapped, all, batch);
        batch := batch + [p];
        if |batch| == count {
          return;
        }
      }
    }

    /** Draw the next page of a batch from a non-zero word. */
    method DrawFromWord(w: nat, ghost start: nat, ghost wrapped: bool, ghost all: set<nat>, ghost batch: seq<nat>)
      returns (page: nat)
      requires Valid() && w < bitmap.Length && bitmap[w] != 0 && ScanReached(free, start, w, wrapped)
      requires |batch| < |all| && Drawn(free, all, start, batch)
      modifies this`freePages, this`free, bitmap
      ensures Valid() && ScanReached(free, start, w, wrapped)
      ensures Drawn(free, all, start, batch + [page]) && page < totalPages
    {
      DrawnNext(free, all, start, batch);
      page := TakeFromWord(w, start, wrapped);
    }

    /** One pass of a batch allocation over words [lo, hi). */
    method DrainWords(lo: nat, hi: nat, ghost start: nat, ghost wrapped: bool,
                      ghost all: set<nat>, count: nat, got: seq<nat>)
      returns (batch: seq<nat>)
      requires Valid() && lo <= hi <= bitmap.Length && ScanReached(free, start, lo, wrapped)
      requires |got| < count <= |all| && Drawn(free, all, start, got)
      modifies this`freePages, this`free, bitmap
      ensures Valid()
      ensures |batch| <= count && Drawn(free, all, start, batch)
      ensures |batch| < count ==> ScanReached(free, start, hi, wrapped)
      ensures |batch| == count ==> batch[count - 1] < totalPages
    {
      batch := got;
      for w := lo to hi
        invariant Valid() && ScanReached(free, start, w, wrapped)
        invariant |batch| < count && Drawn(free, all, start, batch)
      {
        batch := DrainWord(w, start, wrapped, all, count, batch);
        if |batch| == count {
          return;
        }
        WordMiss(bitmap[..], totalPages, free, w);
        ScanPassesWord(free, start, w, wrapped);
      }
    }

    /** Both passes of a batch that there are enough pages for. */
    method DrainAll(count: nat, startWord: nat) returns (batch: seq<nat>)
      requires Valid() && 0 < count <= freePages && startWord <= bitmap.Length
      modifies this`freePages, this`free, bitmap
      ensures Valid() && |batch| == count && batch[count - 1] < totalPages
      ensures Drawn(free, old(free), startWord * 64, batch)
    {
      ghost var all := free;
      batch := DrainWords(startWord, bitmap.Length, startWord * 64, false, all, count, []);
      if |batch| < count {
        ScanWraps(free, totalPages, startWord * 64, bitmap.Length);
        batch := DrainWords(0, startWord, startWord * 64, true, all, count, batch);
        if |batch| < count {
          // The rollback of a short batch: both passes emptied every word, so no batch is short.
          ScanEnds(free, startWord * 64, startWord);
          DrawnAll(all, startWord * 64, batch);
          assert false;
        }
      }
    }

    method AllocPages(count: nat) returns (pages: Option<seq<nat>>)
      requires Valid()
      modifies this`freePages, this`nextFreeHint, this`free, bitmap
      ensures Valid()
      ensures (View(), pages) == AllocBatch(old(View()), count)
    {
      if count == 0 {
        return Some([]);
      }
      if freePages < count {
        return None;
      }
      ghost var before := View();
      var result := DrainAll(count, nextFreeHint / 64);
      DrawnBatch(before, count, free, result);
      nextFreeHint := result[count - 1] + 1;
      pages := Some(result);
    }

    /** Take the run [start, start + count) out of the bitmap. */
    method ClaimRun(start: nat, count: nat)
      requires Valid() && IsRun(free, start, count)
      modifies this`freePages, this`free, bitmap
      ensures Valid() && free == old(free) - Interval(start, start + count)
    {
      for i := start to start + count
        invariant Valid() && free == old(free) - Interval(start, i)
      {
        IntervalSnoc(start, i);
        Claim(i);
      }
    }

    /** The lowest run of `count` free pages at or after `from`, if there is one. */
    method FindRun(from: nat, count: nat) returns (run: Option<nat>)
      requires Valid() && count >= 1
      ensures run == if RunStarts(free, from, count) != {}
                     then Some(Least(RunStarts(free, from, count))) else None
    {
      var runStart, runLen := 0, 0;
      var page := from;
      while page < totalPages
        invariant from <= page
        invariant runLen < count && from <= page - runLen
        invariant runLen > 0 ==> runStart == page - runLen
        invariant forall i :: page - runLen <= i < page ==> i in free
        invariant forall s: nat :: from <= s < page - runLen ==> !IsRun(free, s, count)
      {
        if IsFree(page) {
          if runLen == 0 {
            runStart := page;
          }
          runLen := runLen + 1;
          if runLen == count {
            LeastUnique(RunStarts(free, from, count), runStart);
            return Some(runStart);
          }
        } else {
          forall s: nat | page - runLen <= s <= page
            ensures !IsRun(free, s, count)
          {
            assert page !in free;
          }
          runLen := 0;
        }
        page := page + 1;
      }
      forall s: nat | from <= s
        ensures !IsRun(free, s, count)
      {
        var last := s + count - 1;
        if last in free {
          assert last < totalPages;
        }
      }
      run := None;
    }

    method AllocPagesContiguous(count: nat) returns (page: Option<nat>)
      requires Valid()
      modifies this`freePages, this`nextFreeHint, this`free, bitmap
      ensures Valid()
      ensures (View(), page) == AllocRun(old(View()), count)
    {
      if count == 0 {
        return None;
      }
      if count == 1 {
        page := AllocPage();
        return;
      }
      if freePages < count {
        ShortOfRun(View(), count);
        return None;
      }
      ghost var before := View();
      page := FindRun(nextFreeHint, count);
      if page == None && nextFreeHint != 0 {
        page := FindRun(0, count);
      }
      if page.Some? {
        RunTaken(before, count, page.value);
        assert page.value + count - 1 in free;
        ClaimRun(page.value, count);
        nextFreeHint := page.value + count;
      }
    }

    /** Put a page back unless it is out of range or already free. */
    method ReturnIfUsed(page: nat)
      requires Valid()
      modifies this`freePages, this`free, bitmap
      ensures Valid() && free == old(free) + InRange(page, totalPages)
    {
      if page < totalPages && !IsFree(page) {
        Return(page);
      }
    }

    /** Put the next page of a run back. */
    method ReturnNext(start: nat, i: nat, ghost before: set<nat>)
      requires Valid() && GivenBack(free, before, start, i, totalPages)
      modifies this`freePages, this`free, bitmap
      ensures Valid() && GivenBack(free, before, start, i + 1, totalPages)
    {
      FreeRunStep(before, free, start, i, totalPages);
      ReturnIfUsed(start + i);
    }

    /** Put every in-range allocated page of [start, start + count) back. */
    method ReturnRun(start: nat, count: nat)
      requires Valid()
      modifies this`freePages, this`free, bitmap
      ensures Valid() && GivenBack(free, old(free), start, count, totalPages)
    {
      ghost var before := free;
      GivenNone(before, start, totalPages);
      for i := 0 to count
        invariant Valid() && GivenBack(free, before, start, i, totalPages)
      {
        ReturnNext(start, i, before);
      }
    }

    method FreePagesContiguous(addr: nat, count: nat)
      requires Valid()
      modifies this`freePages, this`nextFreeHint, this`free, bitmap
      ensures Valid()
      ensures View() == FreeRunAt(old(View()), baseAddr, addr, count)
    {
      if addr < baseAddr {
        return;
      }
      var startPage := (addr - baseAddr) / PAGE_SIZE;
      FreeRunAtPage(View(), baseAddr, addr, startPage, count);
      FreePagesFrom(startPage, count);
    }

    method FreePagesFrom(startPage: nat, count: nat)
      requires Valid()
      modifies this`freePages, this`nextFreeHint, this`free, bitmap
      ensures Valid() && View() == FreeRun(old(View()), startPage, count)
    {
      ReturnRun(startPage, count);
      if startPage < nextFreeHint {
        nextFreeHint := startPage;
      }
    }

    method FreePage(addr: nat) returns (outcome: FreeOutcome)
      requires Valid()
      modifies this`freePages, this`nextFreeHint, this`free, bitmap
      ensures Valid()
      ensures (View(), outcome) == FreeOneAt(old(View()), baseAddr, addr)
    {
      if addr < baseAddr {
        return OutOfRange;
      }
      var page := (addr - baseAddr) / PAGE_SIZE;
      if page >= totalPages {
        return OutOfRange;
      }
      if IsFree(page) {
        return DoubleFree;
      }
      Return(page);
      if page < nextFreeHint {
        nextFreeHint := page;
      }
      outcome := Freed;
    }
  }
}
