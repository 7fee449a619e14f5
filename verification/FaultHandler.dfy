/**
 The file-backed fault handler as the kernel runs it, on the physical memory manager and the page
 table of one address space. Every method is proved to do what the functions of module DemandPaging
 say, for every schedule of the other processors.
 */
module FaultPath {
  import opened Prelude
  import opened ByteMemory
  import opened RefCounts
  import opened FrameManager
  import opened DemandPaging
  import opened FaultResults
  import opened FaultWindow

  class FaultHandler {
    const pmm: Manager
    /** What the other processors do at the points where the fault holds no lock. */
    const turns: seq<Turn>
    var foreign: set<nat>
    var table: map<int, nat>
    var contents: map<nat, seq<Byte>>
    /** How often the space lists a frame as in use. */
    var owned: map<nat, nat>
    /** The pages of files that are mapped read-only. */
    const readOnly: set<int>
    var clock: nat

    ghost var log: Log

    constructor (manager: Manager, others: seq<Turn>, held: set<nat>, files: set<int>)
      requires manager.Valid()
      ensures pmm == manager && turns == others && Valid()
      ensures View() == Fault(manager.View(), held, map[], map[], map[], files, 0, NEW_LOG)
    {
      pmm, turns, foreign, readOnly := manager, others, held, files;
      table, contents, owned, clock := map[], map[], map[], 0;
      log := NEW_LOG;
    }

    ghost predicate Valid()
      reads this, pmm, pmm.pmm, pmm.pmm.bitmap
    {
      pmm.Valid()
    }

    ghost function View(): Fault
      reads this, pmm, pmm.pmm
    {
      Fault(pmm.View(), foreign, table, contents, owned, readOnly, clock, log)
    }

    method OtherTakes(count: nat)
      requires Valid()
      modifies this`foreign, pmm, pmm.pmm, pmm.pmm.bitmap
      ensures Valid() && pmm.pmm.bitmap == old(pmm.pmm.bitmap)
      ensures View() == Do(old(View()), Take(count))
    {
      var got := pmm.AllocPagesContiguous(count);
      if got.Some? {
        foreign := foreign + Interval(got.value, got.value + count);
      }
    }

    method OtherGives(page: nat)
      requires Valid()
      modifies this`foreign, pmm, pmm.pmm, pmm.pmm.bitmap
      ensures Valid() && pmm.pmm.bitmap == old(pmm.pmm.bitmap)
      ensures View() == Do(old(View()), Give(page))
    {
      if page in foreign {
        foreign := foreign - {page};
        pmm.FreePage(page);
      }
    }

    method OtherMaps(va: int, page: nat)
      requires Valid()
      modifies this
      ensures Valid() && View() == Do(old(View()), Map(va, page))
    {
      if page in foreign && va !in table {
        table, foreign, owned := table[va := page], foreign - {page}, Track(owned, page);
        log := log.(theirs := log.theirs[va := page]);
      }
    }

    /** Another processor takes, returns or maps. */
    method Other(a: Act)
      requires Valid()
      modifies this, pmm, pmm.pmm, pmm.pmm.bitmap
      ensures Valid() && pmm.pmm.bitmap == old(pmm.pmm.bitmap)
      ensures View() == Do(old(View()), a)
    {
      match a
      case Take(count) => OtherTakes(count);
      case Give(page) => OtherGives(page);
      case Map(va, page) => OtherMaps(va, page);
    }

    /** The other processors have their turn; `taken` is by how many pages they make the free ones fewer. */
    method Others() returns (turn: Turn, ghost taken: int)
      requires Valid()
      modifies this, pmm, pmm.pmm, pmm.pmm.bitmap
      ensures Valid() && pmm.pmm.bitmap == old(pmm.pmm.bitmap)
      ensures View() == Race(old(View()), turns) && turn == TurnAt(turns, old(clock))
      ensures taken == RaceTakes(old(View()), turns)
    {
      turn := TurnAt(turns, clock);
      taken := RaceTakes(View(), turns);
      clock := clock + 1;
      ghost var start := View();
      var i := 0;
      while i < |turn.acts|
        invariant i <= |turn.acts| && Valid() && pmm.pmm.bitmap == old(pmm.pmm.bitmap)
        invariant DoAll(View(), turn.acts[i..]) == DoAll(start, turn.acts)
      {
        Other(turn.acts[i]);
        assert turn.acts[i..][1..] == turn.acts[i + 1..];
        i := i + 1;
      }
    }

    /** Unmap a read-only page of a file, and free its frame if the list has it exactly once. */
    method EvictPage(va: int)
      requires Valid()
      modifies this, pmm, pmm.pmm, pmm.pmm.bitmap
      ensures Valid() && pmm.pmm.bitmap == old(pmm.pmm.bitmap)
      ensures View() == Evict(old(View()), va)
    {
      if va in table && va in readOnly {
        var f := table[va];
        ghost var before := FreeOf(pmm.View());
        var last := CountIn(owned, f) == 1;
        table, owned := table - {va}, Forget(owned, f);
        if last {
          pmm.FreePage(f);
        }
        ghost var back := f in FreeOf(pmm.View()) && f !in before;
        log := log.(theirs := log.theirs - {va}, gone := log.gone + {va}, dropped := log.dropped + {f},
                    freed := if back then log.freed + {f} else log.freed);
      }
    }

    method SweepPages(vas: seq<int>)
      requires Valid()
      modifies this, pmm, pmm.pmm, pmm.pmm.bitmap
      ensures Valid() && pmm.pmm.bitmap == old(pmm.pmm.bitmap)
      ensures View() == Sweep(old(View()), vas, turns)
    {
      var i := 0;
      ghost var result := Sweep(View(), vas, turns);
      while i < |vas|
        invariant i <= |vas| && Valid() && pmm.pmm.bitmap == old(pmm.pmm.bitmap)
        invariant SweepLeads(View(), vas[i..], turns, result)
      {
        ghost var s := View();
        EvictPage(vas[i]);
        var _, _ := Others();
        SweepStep(s, vas[i..], turns, result, View());
        assert vas[i..][1..] == vas[i + 1..];
        i := i + 1;
      }
    }

    method FreeCount() returns (n: nat)
      requires Valid()
      ensures n == FreeNow(View())
    {
      n := pmm.FreeCount();
    }

    /** One page from the allocator; `seen` is the free count the fault has looked at. */
    method TakeOneFrame(ghost seen: nat, ghost taken: int) returns (page: Option<nat>)
      requires Valid()
      modifies this, pmm, pmm.pmm, pmm.pmm.bitmap
      ensures Valid() && pmm.pmm.bitmap == old(pmm.pmm.bitmap)
      ensures (View(), page) == TakeFrame(old(View()), seen, taken)
    {
      ghost var found := FreeNow(View());
      page := pmm.AllocPage();
      if page.Some? {
        log := log.(draws := log.draws + [Draw(seen, found, taken, [page.value])]);
      } else {
        log := log.(refusedAt := Some(found));
      }
    }

    method AllocPage(ghost seen: nat, ghost taken: int) returns (page: Option<nat>)
      requires Valid()
      modifies this, pmm, pmm.pmm, pmm.pmm.bitmap
      ensures Valid() && pmm.pmm.bitmap == old(pmm.pmm.bitmap)
      ensures (View(), page) == AllocFrame(old(View()), seen, taken, turns)
    {
      page := TakeOneFrame(seen, taken);
      if page.None? {
        var turn, more := Others();
        if turn.reclaimed {
          page := TakeOneFrame(seen, taken + more);
        }
      }
    }

    /** Reclaim heap spans, then evict read-only pages of files, while the free pages are down to the reserve. */
    method Reclaim() returns (free: nat)
      requires Valid()
      modifies this, pmm, pmm.pmm, pmm.pmm.bitmap
      ensures Valid() && pmm.pmm.bitmap == old(pmm.pmm.bitmap)
      ensures View() == Relieve(old(View()), turns) && free == FreeNow(View())
    {
      free := FreeCount();
      if UserAllocWouldStarve(free) {
        var _, _ := Others();
        free := FreeCount();
        if UserAllocWouldStarve(free) {
          var turn, _ := Others();
          SweepPages(turn.sweep);
          free := FreeCount();
        }
      }
    }

    method AllocPageUser() returns (page: Option<nat>)
      requires Valid()
      modifies this, pmm, pmm.pmm, pmm.pmm.bitmap
      ensures Valid() && pmm.pmm.bitmap == old(pmm.pmm.bitmap)
      ensures (View(), page) == AllocUser(old(View()), turns)
    {
      var free := Reclaim();
      if UserAllocWouldStarve(free) {
        log := log.(refusedAt := Some(free));
        return None;
      }
      var _, taken := Others();
      page := AllocPage(free, taken);
    }

    method TakeSingle(needed: nat) returns (pool: seq<nat>)
      requires Valid()
      modifies this, pmm, pmm.pmm, pmm.pmm.bitmap
      ensures Valid() && pmm.pmm.bitmap == old(pmm.pmm.bitmap)
      ensures (View(), pool) == TakeSingly(old(View()), [], needed, turns)
    {
      pool := [];
      var i := 0;
      ghost var start, s := View(), View();
      SinglyStart(start, turns);
      while i < needed
        invariant i <= needed && Valid() && pmm.pmm.bitmap == old(pmm.pmm.bitmap)
        invariant s == View() && SinglyLeads(start, s, pool, i, turns)
      {
        var frame := AllocPageUser();
        if frame.None? {
          SinglyStops(start, s, pool, i, turns, View(), needed);
          return;
        }
        SinglyMore(start, s, pool, i, turns, View(), frame.value);
        s := View();
        pool := pool + [frame.value];
        i := i + 1;
      }
      SinglyEnds(start, s, pool, needed, turns);
    }

    method TakeBatchOfFrames(ghost seen: nat, ghost taken: int, needed: nat) returns (batch: Option<seq<nat>>)
      requires Valid()
      modifies this, pmm, pmm.pmm, pmm.pmm.bitmap
      ensures Valid() && pmm.pmm.bitmap == old(pmm.pmm.bitmap)
      ensures (View(), batch) == TakeFrames(old(View()), seen, taken, needed)
    {
      ghost var found := FreeNow(View());
      batch := pmm.AllocPages(needed);
      if batch.Some? {
        log := log.(draws := log.draws + [Draw(seen, found, taken, batch.value)]);
      }
    }

    /** A batch of frames, or, if there are not that many, single frames. */
    method TakeBatchOrSingle(ghost seen: nat, ghost taken: int, needed: nat) returns (pool: seq<nat>)
      requires Valid()
      modifies this, pmm, pmm.pmm, pmm.pmm.bitmap
      ensures Valid() && pmm.pmm.bitmap == old(pmm.pmm.bitmap)
      ensures (View(), pool) == TakePool(old(View()), seen, taken, needed, turns)
    {
      var batch := TakeBatchOfFrames(seen, taken, needed);
      if batch.Some? {
        return batch.value;
      }
      pool := TakeSingle(needed);
    }

    /** How many pages of the window need a frame. */
    method CountUnmapped(job: Job) returns (n: nat)
      requires Valid()
      modifies this, pmm, pmm.pmm, pmm.pmm.bitmap
      ensures Valid() && pmm.pmm.bitmap == old(pmm.pmm.bitmap)
      ensures (View(), n) == Count(old(View()), job.first, job.end, 0, turns)
    {
      n := 0;
      var va := job.first;
      ghost var result := Count(View(), va, job.end, n, turns);
      while va < job.end
        invariant Valid() && pmm.pmm.bitmap == old(pmm.pmm.bitmap)
        invariant CountLeads(View(), va, job.end, n, turns, result)
        decreases job.end - va
      {
        ghost var s := View();
        var _, _ := Others();
        CountStep(s, va, job.end, n, turns, result, View());
        if va !in table {
          n := n + 1;
        }
        va := va + PAGE_SIZE;
      }
    }

    /** The frames for the window: counted, clamped to the budget, drawn. */
    method DrawPool(job: Job) returns (pool: seq<nat>)
      requires Valid()
      modifies this, pmm, pmm.pmm, pmm.pmm.bitmap
      ensures Valid() && pmm.pmm.bitmap == old(pmm.pmm.bitmap)
      ensures (View(), pool) == Supply(old(View()), job, turns)
    {
      var needed := CountUnmapped(job);
      var free := FreeCount();
      needed := Min(needed, UserReadaheadBudget(free));
      var _, taken := Others();
      if needed == 0 {
        return [];
      }
      pool := TakeBatchOrSingle(free, taken, needed);
    }

    method ReturnFrame(f: nat)
      requires Valid()
      modifies this`log, pmm, pmm.pmm, pmm.pmm.bitmap
      ensures Valid() && pmm.pmm.bitmap == old(pmm.pmm.bitmap)
      ensures View() == Return(old(View()), f)
    {
      pmm.FreePage(f);
      log := log.(returned := log.returned + [f]);
    }

    /** Fill a frame for the page at `cur`, and map it unless the page is mapped by now. */
    method FillAndMap(cur: int, f: nat, job: Job) returns (installed: bool)
      requires Valid()
      modifies this, pmm, pmm.pmm, pmm.pmm.bitmap
      ensures Valid() && pmm.pmm.bitmap == old(pmm.pmm.bitmap)
      ensures View() == Install(old(View()), cur, f, job) && installed == (cur !in old(table))
    {
      contents := contents[f := FillPage(job.file, job.seg, cur)];
      installed := cur !in table;
      if installed {
        table, owned := table[cur := f], Track(owned, f);
        log := log.(placed := log.placed[cur := f]);
      } else {
        ReturnFrame(f);
      }
    }

    /** One page of the window. */
    method VisitPage(pool: seq<nat>, idx: nat, resolved: bool, cur: int, job: Job)
      returns (stop: bool, next: nat, anyMapped: bool)
      requires Valid()
      modifies this, pmm, pmm.pmm, pmm.pmm.bitmap
      ensures Valid() && pmm.pmm.bitmap == old(pmm.pmm.bitmap)
      ensures (Loop(View(), next, anyMapped), stop) == Visit(Loop(old(View()), idx, resolved), pool, cur, job, turns)
    {
      var _, _ := Others();
      if cur in table || idx >= |pool| {
        return cur !in table, idx, resolved;
      }
      var _, _ := Others();
      var installed := FillAndMap(cur, pool[idx], job);
      return false, idx + 1, resolved || installed || cur == job.first;
    }

    /** One page, as a step of the window. */
    method VisitNext(pool: seq<nat>, idx: nat, resolved: bool, cur: int, job: Job, ghost result: Loop)
      returns (stop: bool, next: nat, anyMapped: bool)
      requires Valid() && cur < job.end && WalkLeads(Loop(View(), idx, resolved), pool, cur, job, turns, result)
      modifies this, pmm, pmm.pmm, pmm.pmm.bitmap
      ensures Valid() && pmm.pmm.bitmap == old(pmm.pmm.bitmap)
      ensures stop ==> Loop(View(), next, anyMapped) == result
      ensures !stop ==> WalkLeads(Loop(View(), next, anyMapped), pool, cur + PAGE_SIZE, job, turns, result)
    {
      ghost var l := Loop(View(), idx, resolved);
      stop, next, anyMapped := VisitPage(pool, idx, resolved, cur, job);
      WalkStep(l, pool, cur, job, turns, result, Loop(View(), next, anyMapped), stop);
    }

    /** Go through the window page by page. */
    method MapWindow(pool: seq<nat>, job: Job) returns (anyMapped: bool, idx: nat)
      requires Valid()
      modifies this, pmm, pmm.pmm, pmm.pmm.bitmap
      ensures Valid() && pmm.pmm.bitmap == old(pmm.pmm.bitmap)
      ensures Loop(View(), idx, anyMapped) == Walk(Loop(old(View()), 0, false), pool, job.first, job, turns)
    {
      anyMapped, idx := false, 0;
      var va := job.first;
      ghost var result := Walk(Loop(View(), 0, false), pool, va, job, turns);
      while va < job.end
        invariant Valid() && pmm.pmm.bitmap == old(pmm.pmm.bitmap)
        invariant WalkLeads(Loop(View(), idx, anyMapped), pool, va, job, turns, result)
        decreases job.end - va
      {
        var stop;
        stop, idx, anyMapped := VisitNext(pool, idx, anyMapped, va, job, result);
        if stop {
          return;
        }
        va := va + PAGE_SIZE;
      }
    }

    /** Give the frames that were not used back. */
    method ReturnRest(pool: seq<nat>, from: nat)
      requires Valid()
      modifies this, pmm, pmm.pmm, pmm.pmm.bitmap
      ensures Valid() && pmm.pmm.bitmap == old(pmm.pmm.bitmap)
      ensures View() == PutBack(old(View()), pool, from, turns)
    {
      var i := from;
      ghost var result := PutBack(View(), pool, from, turns);
      while i < |pool|
        invariant Valid() && pmm.pmm.bitmap == old(pmm.pmm.bitmap)
        invariant PutBackLeads(View(), pool, i, turns, result)
      {
        ghost var s := View();
        ReturnFrame(pool[i]);
        var _, _ := Others();
        PutBackStep(s, pool, i, turns, result, View());
        i := i + 1;
      }
    }

    /** Map what is unmapped in the window, as far as frames go, and give the other frames back. */
    method ReadAhead(job: Job) returns (anyMapped: bool)
      requires Valid()
      modifies this, pmm, pmm.pmm, pmm.pmm.bitmap
      ensures Valid() && pmm.pmm.bitmap == old(pmm.pmm.bitmap)
      ensures (View(), anyMapped) == Prefetch(old(View()), job, turns)
    {
      var pool := DrawPool(job);
      var idx;
      anyMapped, idx := MapWindow(pool, job);
      ReturnRest(pool, idx);
    }

    /** A single frame for the faulting page alone. */
    method SinglePage(job: Job) returns (ok: bool)
      requires Valid()
      modifies this, pmm, pmm.pmm, pmm.pmm.bitmap
      ensures Valid() && pmm.pmm.bitmap == old(pmm.pmm.bitmap)
      ensures (View(), ok) == Single(old(View()), job, turns)
    {
      var frame := AllocPageUser();
      if frame.None? {
        return false;
      }
      var _, _ := Others();
      var _ := FillAndMap(job.first, frame.value, job);
      ok := true;
    }

    /**
     A fault at `pageVa` in a file-backed region that ends at `regionEnd`. It maps pages of the region
     only, at most 256 from `pageVa` on; with quiet others and that many pages above the reserve, all
     of them are mapped afterwards.
     */
    method HandleFileFault(pageVa: int, regionEnd: int, file: seq<Byte>, seg: Segment) returns (ok: bool)
      requires Valid() && pageVa < regionEnd && Begins(View())
      modifies this, pmm, pmm.pmm, pmm.pmm.bitmap
      ensures Valid() && pmm.pmm.bitmap == old(pmm.pmm.bitmap)
      ensures Settled(View(), old(View()), Window(pageVa, regionEnd, file, seg))
      ensures StaysInWindow(log.placed, pageVa, regionEnd)
      ensures Quiet(turns) && FreeNow(old(View())) >= 16 + 256 ==>
                ok && WindowMapped(table, pageVa, regionEnd) && table.Keys == old(table).Keys + log.placed.Keys
      ensures ok ==> pageVa in table
      ensures !ok ==> log.refusedAt.Some? && log.refusedAt.value <= USER_PAGE_RESERVE
      ensures !ok && pageVa in table ==> pageVa in log.theirs
      ensures forall d :: d in log.draws ==> (d.taken <= 0 ==> Spares(d))
    {
      var job := Window(pageVa, regionEnd, file, seg);
      FaultSettles(View(), job, turns);
      ImagesStay(Resolve(View(), job, turns).0, View(), pageVa, regionEnd, job);
      if Quiet(turns) && FreeNow(View()) >= 16 + 256 {
        QuietWindowMapped(View(), pageVa, regionEnd, job, turns);
      }
      var anyMapped := ReadAhead(job);
      if anyMapped {
        return true;
      }
      var _, _ := Others();
      if pageVa in table {
        return true;
      }
      ok := SinglePage(job);
    }
  }
}
