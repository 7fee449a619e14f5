/** What every page fault leaves behind, and what it does to the reserve of free pages. */
module FaultResults {
  import opened Prelude
  import opened PagePool
  import opened FrameManager
  import opened DemandPaging
  import opened FramePlaces

  // ---------------------------------------------------------------- a whole fault

  /**
   What a fault leaves behind: the free frames are those there were, those the others held and those
   of evicted pages that came back, less the ones the fault placed, the ones the others mapped and the
   ones the others hold now. Pages stay mapped unless they were evicted; none the fault mapped was.
   */
  ghost predicate Settled(r: Fault, o: Fault, job: Job) {
    && FreeOf(r.books)
       == Universe(o) + r.log.freed - FramesOf(r.log.placed) - FramesOf(r.log.theirs) - r.foreign
    && FramesOf(r.log.placed) + FramesOf(r.log.theirs) + r.foreign <= Universe(o) + r.log.freed
    && FramesOf(r.log.placed) !! FramesOf(r.log.theirs) && FramesOf(r.log.placed) !! r.foreign
    && FramesOf(r.log.theirs) !! r.foreign
    && Composed(r, o) && Images(r, o, job) && SharedOk(r, o) && AllListed(r, o) && EvictedOk(r, o)
    && Accounted(r.log, {})
  }

  lemma SoundSettles(r: Fault, o: Fault, job: Job)
    requires Sound(r, {}, o, job)
    ensures Settled(r, o, job)
  {
    assert forall f: nat :: f in Known(r, o) || f in FreeOf(r.books) || f in r.foreign ==> PlacedOnce(r, {}, o, f);
    assert forall f :: f in FramesOf(r.log.placed) || f in FramesOf(r.log.theirs) ==> PlacedOnce(r, {}, o, f);
  }

  /** Settled faults leave no mapped frame free. */
  lemma MappedIsNotFree(r: Fault, o: Fault, job: Job, va: int)
    requires Settled(r, o, job) && va in r.table
    ensures r.table[va] !in FreeOf(r.books)
  {
    assert Explained(r, o, va);
    if va in r.log.placed {
      assert r.log.placed[va] in FramesOf(r.log.placed);
    } else if va in r.log.theirs {
      assert r.log.theirs[va] in FramesOf(r.log.theirs);
    }
  }

  /** A page that was not mapped when the fault had mapped nothing yet was mapped by the others. */
  lemma MappedByOthers(u: Fault, r: Fault, o: Fault, va: int)
    requires Composed(u, o) && Composed(r, o) && Forward(r, u) && u.log.placed == map[]
    requires va !in u.table && va in r.table
    ensures va in r.log.theirs
  {
    assert Explained(r, o, va);
  }

  /**
   Every fault settles, whatever the others do meanwhile and whatever is evicted. A resolved one has its
   page mapped. One that is not resolved was refused a frame with the free pages down to the reserve,
   and its page is not mapped unless by the others.
   */
  lemma FaultSettles(o: Fault, job: Job, turns: seq<Turn>)
    requires Begins(o) && job.first < job.end
    ensures var (r, ok) := Resolve(o, job, turns);
            && Settled(r, o, job)
            && (ok ==> job.first in r.table)
            && (!ok ==> r.log.refusedAt.Some? && r.log.refusedAt.value <= USER_PAGE_RESERVE)
            && (!ok && job.first in r.table ==> job.first in r.log.theirs)
  {
    BeginsSound(o, job);
    PrefetchKeeps(o, job, turns, o);
    var (t, anyMapped) := Prefetch(o, job, turns);
    if anyMapped {
      SoundSettles(t, o, job);
    } else {
      var u := Race(t, turns);
      RaceKeeps(t, turns, {}, o, job);
      if job.first in u.table {
        SoundSettles(u, o, job);
      } else {
        SingleSettles(u, job, turns, o);
      }
    }
  }

  lemma SingleSettles(u: Fault, job: Job, turns: seq<Turn>, o: Fault)
    requires Sound(u, {}, o, job) && u.log.placed == map[] && job.first < job.end && job.first !in u.table
    ensures var (r, ok) := Single(u, job, turns);
            && Settled(r, o, job)
            && (ok ==> job.first in r.table)
            && (!ok ==> r.log.refusedAt.Some? && r.log.refusedAt.value <= USER_PAGE_RESERVE)
            && (!ok && job.first in r.table ==> job.first in r.log.theirs)
  {
    SingleKeeps(u, job, turns, o);
    var (r, ok) := Single(u, job, turns);
    SoundSettles(r, o, job);
    if !ok && job.first in r.table {
      MappedByOthers(u, r, o, job.first);
    }
  }

  // ---------------------------------------------------------------- which pages are evicted

  lemma {:induction false} ActsEvictNothing(s: Fault, acts: seq<Act>)
    ensures DoAll(s, acts).readOnly == s.readOnly && DoAll(s, acts).log.gone == s.log.gone
    decreases |acts|
  {
    if acts != [] {
      ActsEvictNothing(Do(s, acts[0]), acts[1..]);
    }
  }

  lemma RaceEvictsNothing(s: Fault, turns: seq<Turn>)
    ensures Race(s, turns).readOnly == s.readOnly && Race(s, turns).log.gone == s.log.gone
  {
    ActsEvictNothing(s.(clock := s.clock + 1), TurnAt(turns, s.clock).acts);
  }

  /** A sweep evicts every read-only page that it looks at, and no page that it does not look at. */
  lemma {:induction false} SweepEvicts(s: Fault, vas: seq<int>, turns: seq<Turn>, va: int)
    ensures va in vas && va in s.table && va in s.readOnly ==> va in Sweep(s, vas, turns).log.gone
    ensures va in Sweep(s, vas, turns).log.gone ==> va in s.log.gone || va in vas
    decreases |vas|
  {
    if vas != [] {
      var t := Evict(s, vas[0]);
      RaceEvictsNothing(t, turns);
      RaceOnwards(t, turns);
      SweepForward(Race(t, turns), vas[1..], turns);
      SweepEvicts(Race(t, turns), vas[1..], turns, va);
    }
  }

  /** Nothing is evicted unless the free pages are down to the reserve before and after heap spans come back. */
  lemma EvictsOnlyStarved(s: Fault, turns: seq<Turn>)
    requires !Starved(s) || !Starved(Race(s, turns))
    ensures Relieve(s, turns).log.gone == s.log.gone
  {
    RaceEvictsNothing(s, turns);
  }

  /** If they were, every read-only page that the sweep looks at is evicted. */
  lemma EvictsWhenStarved(s: Fault, turns: seq<Turn>, va: int)
    requires Starved(s) && Starved(Race(s, turns)) && va in s.table && va in s.readOnly
    requires va in TurnAt(turns, Race(s, turns).clock).sweep
    ensures va in Relieve(s, turns).log.gone
  {
    var t := Race(s, turns);
    RaceEvictsNothing(s, turns);
    RaceOnwards(s, turns);
    RaceEvictsNothing(t, turns);
    RaceOnwards(t, turns);
    SweepEvicts(Race(t, turns), TurnAt(turns, t.clock).sweep, turns, va);
  }

  // ---------------------------------------------------------------- the reserve

  /** A draw that does not take the free pages from the reserve or above to below it. */
  predicate Spares(d: Draw) {
    d.found >= USER_PAGE_RESERVE ==> d.found - |d.frames| >= USER_PAGE_RESERVE
  }

  /**
   The draws of every fault, for every schedule: the frames drawn were free at the draw. The reserve
   is kept exactly if the others left fewer pages than the reserve, or took no more pages between the
   look and the draw than were free above the reserve and the frames drawn.
   */
  lemma ReserveExactly(o: Fault, job: Job, turns: seq<Turn>, d: Draw)
    requires Begins(o) && job.first < job.end && d in Resolve(o, job, turns).0.log.draws
    ensures |d.frames| <= d.found == d.seen - d.taken
    ensures Spares(d) <==> d.seen - d.taken < USER_PAGE_RESERVE || |d.frames| + d.taken + USER_PAGE_RESERVE <= d.seen
    ensures d.taken <= 0 ==> Spares(d)
  {
    FaultSettles(o, job, turns);
    assert Announced(d);
  }

  /** A pool has at most as many frames as pages are missing, and exactly as many if it is a batch. */
  lemma PoolAtMost(s: Fault, seen: nat, taken: int, n: nat, turns: seq<Turn>)
    ensures var pool := TakePool(s, seen, taken, n, turns).1;
            |pool| <= n && (n <= FreeNow(s) ==> |pool| == n)
  {
    if n <= FreeNow(s) {
      BatchIsFree(s.books.ledger.pool, n);
    }
  }

  /** A batch at its draw: the reserve stays exactly if it is not served or leaves the reserve. */
  lemma BatchSparesExactly(s: Fault, seen: nat, taken: int, n: nat, turns: seq<Turn>)
    requires FreeNow(s) >= USER_PAGE_RESERVE && n <= FreeNow(s)
    ensures var (t, pool) := TakePool(s, seen, taken, n, turns);
            && |pool| == n && FreeNow(t) == FreeNow(s) - n
            && t.log.draws == s.log.draws + [Draw(seen, FreeNow(s), taken, pool)]
            && (FreeNow(t) >= USER_PAGE_RESERVE <==> FreeNow(s) >= n + USER_PAGE_RESERVE)
  {
    BatchBalance(s.books.ledger.pool, n);
  }

  lemma {:induction false} WalkDraws(l: Loop, pool: seq<nat>, cur: int, job: Job, turns: seq<Turn>)
    ensures l.s.log.draws <= Walk(l, pool, cur, job, turns).s.log.draws
    decreases job.end - cur
  {
    if cur < job.end {
      RaceOnwards(l.s, turns);
      RaceOnwards(Race(l.s, turns), turns);
      var (t, stop) := Visit(l, pool, cur, job, turns);
      if !stop {
        WalkDraws(t, pool, cur + PAGE_SIZE, job, turns);
      }
    }
  }

  lemma {:induction false} PutBackDraws(s: Fault, pool: seq<nat>, i: nat, turns: seq<Turn>)
    ensures s.log.draws <= PutBack(s, pool, i, turns).log.draws
    decreases |pool| - i
  {
    if i < |pool| {
      RaceOnwards(Return(s, pool[i]), turns);
      PutBackDraws(Race(Return(s, pool[i]), turns), pool, i + 1, turns);
    }
  }

  lemma SingleDraws(s: Fault, job: Job, turns: seq<Turn>)
    ensures s.log.draws <= Single(s, job, turns).0.log.draws
  {
    AllocUserForward(s, turns);
    RaceOnwards(AllocUser(s, turns).0, turns);
  }

  /** Draws stay on record. */
  lemma SupplyOnRecord(o: Fault, job: Job, turns: seq<Turn>)
    ensures Supply(o, job, turns).0.log.draws <= Resolve(o, job, turns).0.log.draws
  {
    var (t, pool) := Supply(o, job, turns);
    WalkDraws(Loop(t, 0, false), pool, job.first, job, turns);
    var w := Walk(Loop(t, 0, false), pool, job.first, job, turns);
    PutBackDraws(w.s, pool, w.idx, turns);
    var u := Prefetch(o, job, turns).0;
    RaceOnwards(u, turns);
    SingleDraws(Race(u, turns), job, turns);
  }

  /**
   A window wants n pages and the budget allows w of them. Whatever the others do in their turn between
   the look and the draw, if they leave the reserve and the batch is served, the reserve is crossed
   exactly if they take more than the pages free above the reserve and the batch.
   */
  lemma CrossedExactly(s: Fault, n: nat, turns: seq<Turn>, out: set<nat>, o: Fault, job: Job)
    requires Sound(s, out, o, job)
    requires var w := Min(n, UserReadaheadBudget(FreeNow(s)));
             0 < w && w + RaceTakes(s, turns) <= FreeNow(s) && RaceTakes(s, turns) + USER_PAGE_RESERVE <= FreeNow(s)
    ensures var t := DrawFor(s, n, turns).0;
            var w := Min(n, UserReadaheadBudget(FreeNow(s)));
            && |t.log.draws| == |s.log.draws| + 1 && FreeNow(t) == FreeNow(s) - RaceTakes(s, turns) - w
            && (Spares(t.log.draws[|s.log.draws|])
                <==> w + RaceTakes(s, turns) + USER_PAGE_RESERVE <= FreeNow(s))
  {
    RaceTakesThat(s, turns, out, o, job);
    RaceDraws(s, turns);
    BatchCrosses(Race(s, turns), FreeNow(s), RaceTakes(s, turns), Min(n, UserReadaheadBudget(FreeNow(s))), turns);
    DrawForAll(s, n, turns);
  }

  lemma RaceDraws(s: Fault, turns: seq<Turn>)
    ensures Race(s, turns).log.draws == s.log.draws
  {
    SameDraws(s.(clock := s.clock + 1), TurnAt(turns, s.clock).acts);
  }

  /** A batch of w pages that is served after the others took `taken` pages. */
  lemma BatchCrosses(u: Fault, seen: nat, taken: int, w: nat, turns: seq<Turn>)
    requires FreeNow(u) == seen - taken && w + taken <= seen && taken + USER_PAGE_RESERVE <= seen
    ensures var t := TakePool(u, seen, taken, w, turns).0;
            && |t.log.draws| == |u.log.draws| + 1 && FreeNow(t) == seen - taken - w
            && (Spares(t.log.draws[|u.log.draws|]) <==> w + taken + USER_PAGE_RESERVE <= seen)
  {
    BatchSparesExactly(u, seen, taken, w, turns);
  }

  lemma DrawForAll(s: Fault, n: nat, turns: seq<Turn>)
    requires 0 < Min(n, UserReadaheadBudget(FreeNow(s)))
    ensures DrawFor(s, n, turns)
            == TakePool(Race(s, turns), FreeNow(s), RaceTakes(s, turns), Min(n, UserReadaheadBudget(FreeNow(s))), turns)
  {
  }

  /** The same for the user allocator, which draws one page after its own look. */
  lemma SingleCrossedExactly(s: Fault, turns: seq<Turn>, out: set<nat>, o: Fault, job: Job)
    requires Sound(s, out, o, job) && !Starved(s) && RaceTakes(s, turns) + USER_PAGE_RESERVE <= FreeNow(s)
    ensures var (t, got) := AllocUser(s, turns);
            && got.Some? && |t.log.draws| == |s.log.draws| + 1 && FreeNow(t) == FreeNow(s) - RaceTakes(s, turns) - 1
            && (Spares(t.log.draws[|s.log.draws|]) <==> 1 + RaceTakes(s, turns) + USER_PAGE_RESERVE <= FreeNow(s))
  {
    RaceTakesThat(s, turns, out, o, job);
    RaceDraws(s, turns);
    SingleSparesExactly(Race(s, turns), FreeNow(s), RaceTakes(s, turns), turns);
  }

  lemma SingleSparesExactly(s: Fault, seen: nat, taken: int, turns: seq<Turn>)
    requires FreeNow(s) >= USER_PAGE_RESERVE
    ensures var (t, got) := AllocFrame(s, seen, taken, turns);
            && got.Some? && FreeNow(t) == FreeNow(s) - 1
            && t.log.draws == s.log.draws + [Draw(seen, FreeNow(s), taken, [got.value])]
            && (FreeNow(t) >= USER_PAGE_RESERVE <==> FreeNow(s) >= 1 + USER_PAGE_RESERVE)
  {
  }

  function TakeOnes(k: nat): (acts: seq<Act>)
    ensures |acts| == k && forall i :: 0 <= i < k ==> acts[i] == Take(1)
  {
    seq(k, _ => Take(1))
  }

  lemma {:induction false} OthersTake(s: Fault, acts: seq<Act>)
    requires |acts| <= FreeNow(s) && forall i :: 0 <= i < |acts| ==> acts[i] == Take(1)
    ensures NetAll(s, acts) == |acts|
    decreases |acts|
  {
    if acts != [] {
      OthersTake(Do(s, acts[0]), acts[1..]);
    }
  }

  lemma {:induction false} SameDraws(s: Fault, acts: seq<Act>)
    ensures DoAll(s, acts).log.draws == s.log.draws
    decreases |acts|
  {
    if acts != [] {
      SameDraws(Do(s, acts[0]), acts[1..]);
    }
  }

  /** Memory as it is when a machine with n free pages takes its first fault. */
  ghost function Fresh(n: nat, clock: nat): Fault {
    Fault(Books(Ledger(Pool(n, Interval(0, n), 0), 0, 0), map[]), {}, map[], map[], map[], {}, clock, NEW_LOG)
  }

  /** The others do nothing until turn `last`. */
  ghost predicate QuietUntil(turns: seq<Turn>, last: nat) {
    forall i: nat :: i < last ==> TurnAt(turns, i).acts == []
  }

  lemma {:induction false} QuietCount(free: nat, clock: nat, va: int, end: int, n: nat, last: nat, turns: seq<Turn>)
    requires QuietUntil(turns, last) && end == va + (last - clock) * PAGE_SIZE && clock <= last
    ensures Count(Fresh(free, clock), va, end, n, turns) == (Fresh(free, last), n + last - clock)
    decreases last - clock
  {
    if clock < last {
      assert Race(Fresh(free, clock), turns) == Fresh(free, clock + 1);
      QuietCount(free, clock + 1, va + PAGE_SIZE, end, n + 1, last, turns);
    }
  }

  /** Some draw of the fault takes the free pages from the reserve or above to below it. */
  ghost predicate Crosses(o: Fault, job: Job, turns: seq<Turn>) {
    exists d :: d in Resolve(o, job, turns).0.log.draws && !Spares(d)
  }

  lemma SupplyCrosses(o: Fault, job: Job, turns: seq<Turn>, i: nat)
    requires var draws := Supply(o, job, turns).0.log.draws; i < |draws| && !Spares(draws[i])
    ensures Crosses(o, job, turns)
  {
    SupplyOnRecord(o, job, turns);
    var d := Supply(o, job, turns).0.log.draws[i];
    assert Resolve(o, job, turns).0.log.draws[i] == d;
  }

  lemma QuietSupply(free: nat, n: nat, job: Job, turns: seq<Turn>)
    requires QuietUntil(turns, n) && job.end == job.first + n * PAGE_SIZE
    ensures Supply(Fresh(free, 0), job, turns) == DrawFor(Fresh(free, n), n, turns)
  {
    QuietCount(free, 0, job.first, job.end, 0, n, turns);
  }

  lemma FreshSound(n: nat, clock: nat, job: Job)
    ensures Begins(Fresh(n, clock)) && Sound(Fresh(n, clock), {}, Fresh(n, clock), job)
  {
    BeginsSound(Fresh(n, clock), job);
  }

  /** From `free` pages: a window of n pages and k pages taken at the draw can cross the reserve. */
  lemma CrossedFrom(free: nat, n: nat, k: nat, job: Job, turns: seq<Turn>)
    requires 0 < n <= UserReadaheadBudget(free) && USER_PAGE_RESERVE <= free - k && n <= free - k
    requires free < n + k + USER_PAGE_RESERVE && job.end == job.first + n * PAGE_SIZE
    requires QuietUntil(turns, n) && TurnAt(turns, n).acts == TakeOnes(k)
    ensures Crosses(Fresh(free, 0), job, turns)
  {
    IntervalSize(0, free);
    QuietSupply(free, n, job, turns);
    FreshSound(free, n, job);
    OthersTake(Fresh(free, n + 1), TakeOnes(k));
    assert RaceTakes(Fresh(free, n), turns) == k;
    CrossedExactly(Fresh(free, n), n, turns, {}, Fresh(free, n), job);
    SupplyCrosses(Fresh(free, 0), job, turns, 0);
  }

  /** A schedule in which the others do nothing for n turns and then take k pages. */
  function TakenAfter(n: nat, k: nat): seq<Turn> {
    seq(n, _ => Turn([], false, [])) + [Turn(TakeOnes(k), false, [])]
  }

  /** 120 free pages: a window of 60 and 60 pages taken at the draw leave none. */
  lemma ReserveCanBeCrossed(job: Job)
    requires job.end == job.first + 60 * PAGE_SIZE
    ensures Begins(Fresh(120, 0)) && Crosses(Fresh(120, 0), job, TakenAfter(60, 60))
  {
    FreshSound(120, 0, job);
    CrossedFrom(120, 60, 60, job, TakenAfter(60, 60));
  }

  lemma DoAllOne(s: Fault, a: Act)
    ensures DoAll(s, [a]) == Do(s, a)
  {
    assert [a][1..] == [];
  }

  /** With the free pages down to the reserve a quiet window of one page does nothing. */
  lemma QuietPrefetch(o: Fault, job: Job, turns: seq<Turn>)
    requires o.clock == 0 && FreeNow(o) <= USER_PAGE_RESERVE && QuietUntil(turns, 4)
    requires job.first !in o.table && job.end == job.first + PAGE_SIZE
    ensures Prefetch(o, job, turns) == (o.(clock := 3), false)
  {
    var s, t, u := o.(clock := 1), o.(clock := 2), o.(clock := 3);
    assert Race(o, turns) == s && Race(s, turns) == t && Race(t, turns) == u;
    assert Count(o, job.first, job.end, 0, turns) == (s, 1) by {
      assert Count(s, job.end, job.end, 1, turns) == (s, 1);
    }
    assert Supply(o, job, turns) == (t, []);
    assert Visit(Loop(t, 0, false), [], job.first, job, turns) == (Loop(u, 0, false), true);
  }

  /**
   With the free pages down to the reserve, a fault can be refused although another processor has
   mapped its page meanwhile.
   */
  lemma RefusedThoughMapped(o: Fault, job: Job, page: nat, turns: seq<Turn>)
    requires o.clock == 0 && FreeNow(o) <= USER_PAGE_RESERVE && page in o.foreign
    requires job.first !in o.table && job.end == job.first + PAGE_SIZE
    requires QuietUntil(turns, 4) && TurnAt(turns, 4).acts == [Map(job.first, page)]
    requires TurnAt(turns, 5) == Turn([], false, [])
    ensures var (r, ok) := Resolve(o, job, turns); !ok && job.first in r.table
  {
    QuietPrefetch(o, job, turns);
    var v := o.(clock := 4);
    assert Race(o.(clock := 3), turns) == v;
    var w := Do(o.(clock := 5), Map(job.first, page));
    DoAllOne(o.(clock := 5), Map(job.first, page));
    assert Race(v, turns) == w;
    assert Race(w, turns) == w.(clock := 6);
    assert Relieve(v, turns) == w.(clock := 6);
  }
}
