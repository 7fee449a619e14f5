/** Which pages a fault maps while the other processors are quiet: the missing ones, lowest first. */
module FaultWindow {
  import opened Prelude
  import opened FrameManager
  import opened DemandPaging
  import opened FramePlaces
  import opened FaultResults

  /** The other processors do nothing. */
  ghost predicate Quiet(turns: seq<Turn>) {
    forall i :: 0 <= i < |turns| ==> turns[i].acts == []
  }

  /** The unmapped pages from `va` on, in order. */
  function Missing(table: map<int, nat>, va: int, end: int): seq<int>
    decreases end - va
  {
    if va >= end then []
    else (if va in table then [] else [va]) + Missing(table, va + PAGE_SIZE, end)
  }

  ghost function Pages(m: seq<int>): set<int> {
    set va | va in m
  }

  lemma {:induction false} MissingExactly(table: map<int, nat>, va: int, end: int, a: int)
    ensures a in Missing(table, va, end) <==> va <= a < end && (a - va) % PAGE_SIZE == 0 && a !in table
    decreases end - va
  {
    if va < end {
      MissingExactly(table, va + PAGE_SIZE, end, a);
      assert a >= va + PAGE_SIZE ==> (a - va) % PAGE_SIZE == (a - (va + PAGE_SIZE)) % PAGE_SIZE;
    }
  }

  lemma {:induction false} MissingAtMost(table: map<int, nat>, va: int, end: int, n: nat)
    requires end <= va + n * PAGE_SIZE
    ensures |Missing(table, va, end)| <= n
    decreases end - va
  {
    if va < end {
      MissingAtMost(table, va + PAGE_SIZE, end, n - 1);
    }
  }

  /** Mapping a page does not change what is missing after it. */
  lemma {:induction false} MissingLater(table: map<int, nat>, cur: int, f: nat, va: int, end: int)
    requires cur < va
    ensures Missing(table[cur := f], va, end) == Missing(table, va, end)
    decreases end - va
  {
    if va < end {
      MissingLater(table, cur, f, va + PAGE_SIZE, end);
    }
  }

  lemma QuietRace(s: Fault, turns: seq<Turn>)
    requires Quiet(turns)
    ensures Race(s, turns) == s.(clock := s.clock + 1) && RaceTakes(s, turns) == 0
  {
    assert TurnAt(turns, s.clock).acts == [];
  }

  lemma {:induction false} QuietCounts(s: Fault, va: int, end: int, n: nat, turns: seq<Turn>)
    requires Quiet(turns)
    ensures var (t, k) := Count(s, va, end, n, turns);
            t == s.(clock := t.clock) && k == n + |Missing(s.table, va, end)|
    decreases end - va
  {
    if va < end {
      QuietRace(s, turns);
      QuietCounts(s.(clock := s.clock + 1), va + PAGE_SIZE, end, n + One(va !in s.table), turns);
    }
  }

  /** The pool for n pages: as many frames, or as the reserve allows. */
  lemma QuietDraw(s: Fault, n: nat, turns: seq<Turn>)
    requires Quiet(turns)
    ensures var (t, pool) := DrawFor(s, n, turns);
            |pool| == Min(n, UserReadaheadBudget(FreeNow(s))) && t.table == s.table && t.log.placed == s.log.placed
  {
    QuietRace(s, turns);
    var wanted := Min(n, UserReadaheadBudget(FreeNow(s)));
    if wanted > 0 {
      BatchSparesExactly(s.(clock := s.clock + 1), FreeNow(s), 0, wanted, turns);
    }
  }

  /** What a walk from page `cur` on does: k pages more are mapped. */
  ghost predicate Walked(r: Loop, l: Loop, m: seq<int>, k: nat)
    requires k <= |m|
  {
    && r.idx == l.idx + k && (r.anyMapped <==> l.anyMapped || k > 0)
    && r.s.log.placed.Keys == l.s.log.placed.Keys + Pages(m[..k])
    && r.s.table.Keys == l.s.table.Keys + Pages(m[..k])
  }

  lemma QuietVisit(l: Loop, pool: seq<nat>, cur: int, job: Job, turns: seq<Turn>)
    requires Quiet(turns) && l.idx <= |pool|
    ensures var (t, stop) := Visit(l, pool, cur, job, turns);
            && (stop <==> cur !in l.s.table && l.idx == |pool|)
            && (cur in l.s.table || stop ==> t == l.(s := l.s.(clock := t.s.clock)))
            && (cur !in l.s.table && !stop ==>
                  && t.idx == l.idx + 1 && t.anyMapped && t.s.table == l.s.table[cur := pool[l.idx]]
                  && t.s.log.placed == l.s.log.placed[cur := pool[l.idx]])
  {
    QuietRace(l.s, turns);
    QuietRace(l.s.(clock := l.s.clock + 1), turns);
  }

  lemma WalkedOne(r: Loop, t: Loop, l: Loop, cur: int, f: nat, m: seq<int>, k: nat)
    requires k <= |m| && Walked(r, t, m, k) && t.idx == l.idx + 1 && t.anyMapped
    requires t.s.table == l.s.table[cur := f] && t.s.log.placed == l.s.log.placed[cur := f]
    ensures Walked(r, l, [cur] + m, k + 1)
  {
    assert ([cur] + m)[..k + 1] == [cur] + m[..k];
    assert Pages([cur] + m[..k]) == {cur} + Pages(m[..k]);
  }

  /** One page of the walk. */
  lemma QuietStep(l: Loop, pool: seq<nat>, cur: int, job: Job, turns: seq<Turn>, r: Loop)
    returns (t: Loop, stop: bool)
    requires Quiet(turns) && l.idx <= |pool| && cur < job.end && WalkLeads(l, pool, cur, job, turns, r)
    ensures stop <==> cur !in l.s.table && l.idx == |pool|
    ensures stop ==> r == l.(s := l.s.(clock := r.s.clock))
    ensures !stop ==> WalkLeads(t, pool, cur + PAGE_SIZE, job, turns, r)
    ensures cur in l.s.table ==> t == l.(s := l.s.(clock := t.s.clock))
    ensures cur !in l.s.table && !stop ==>
              && t.idx == l.idx + 1 && t.anyMapped && t.s.table == l.s.table[cur := pool[l.idx]]
              && t.s.log.placed == l.s.log.placed[cur := pool[l.idx]]
  {
    QuietVisit(l, pool, cur, job, turns);
    var v := Visit(l, pool, cur, job, turns);
    t, stop := v.0, v.1;
    WalkStep(l, pool, cur, job, turns, r, t, stop);
  }

  /** Nothing but the clock changes before the walk goes on. */
  lemma WalkedOn(r: Loop, t: Loop, l: Loop, m: seq<int>, k: nat)
    requires k <= |m| && Walked(r, t, m, k) && t == l.(s := l.s.(clock := t.s.clock))
    ensures Walked(r, l, m, k)
  {
  }

  lemma WalkedNone(r: Loop, l: Loop, m: seq<int>)
    requires r == l.(s := l.s.(clock := r.s.clock))
    ensures Walked(r, l, m, 0)
  {
    assert Pages(m[..0]) == {};
  }

  /** How many of the missing pages are mapped. */
  function Reach(m: seq<int>, pool: seq<nat>, idx: nat): nat
    requires idx <= |pool|
  {
    Min(|m|, |pool| - idx)
  }

  /** The walk maps the missing pages in order, as far as the pool goes. */
  lemma {:induction false} QuietWalk(l: Loop, pool: seq<nat>, cur: int, job: Job, turns: seq<Turn>, r: Loop)
    requires Quiet(turns) && l.idx <= |pool| && WalkLeads(l, pool, cur, job, turns, r)
    ensures var m := Missing(l.s.table, cur, job.end); Walked(r, l, m, Reach(m, pool, l.idx))
    decreases job.end - cur
  {
    var m := Missing(l.s.table, cur, job.end);
    if cur >= job.end {
      WalkedNone(r, l, m);
    } else {
      var t, stop := QuietStep(l, pool, cur, job, turns, r);
      if stop {
        WalkedNone(r, l, m);
      } else {
        QuietWalk(t, pool, cur + PAGE_SIZE, job, turns, r);
        QuietWalkOn(l, pool, cur, job.end, t, r);
      }
    }
  }

  lemma MissingFrom(table: map<int, nat>, cur: int, end: int)
    requires cur < end
    ensures var later := Missing(table, cur + PAGE_SIZE, end);
            Missing(table, cur, end) == if cur in table then later else [cur] + later
  {
  }

  lemma QuietWalkOn(l: Loop, pool: seq<nat>, cur: int, end: int, t: Loop, r: Loop)
    requires cur < end && l.idx <= |pool| && t.idx <= |pool|
    requires var later := Missing(t.s.table, cur + PAGE_SIZE, end); Walked(r, t, later, Reach(later, pool, t.idx))
    requires cur in l.s.table ==> t == l.(s := l.s.(clock := t.s.clock))
    requires cur !in l.s.table ==>
               && l.idx < |pool| && t.idx == l.idx + 1 && t.anyMapped && t.s.table == l.s.table[cur := pool[l.idx]]
               && t.s.log.placed == l.s.log.placed[cur := pool[l.idx]]
    ensures var m := Missing(l.s.table, cur, end); Walked(r, l, m, Reach(m, pool, l.idx))
  {
    var later := Missing(t.s.table, cur + PAGE_SIZE, end);
    MissingFrom(l.s.table, cur, end);
    if cur in l.s.table {
      WalkedOn(r, t, l, later, Reach(later, pool, t.idx));
    } else {
      MissingLater(l.s.table, cur, pool[l.idx], cur + PAGE_SIZE, end);
      WalkedPlaced(l, pool, cur, later, t, r);
    }
  }

  lemma WalkedPlaced(l: Loop, pool: seq<nat>, cur: int, later: seq<int>, t: Loop, r: Loop)
    requires t.idx <= |pool| && Walked(r, t, later, Reach(later, pool, t.idx))
    requires l.idx < |pool| && t.idx == l.idx + 1 && t.anyMapped && t.s.table == l.s.table[cur := pool[l.idx]]
    requires t.s.log.placed == l.s.log.placed[cur := pool[l.idx]]
    ensures Walked(r, l, [cur] + later, Reach([cur] + later, pool, l.idx))
  {
    WalkedOne(r, t, l, cur, pool[l.idx], later, Reach(later, pool, t.idx));
    assert Reach([cur] + later, pool, l.idx) == Reach(later, pool, t.idx) + 1;
  }

  /**
   While the others are quiet and some page is free above the reserve, a fault maps exactly the lowest
   missing pages of the window, all of them if the reserve allows, and is resolved.
   */
  lemma QuietFault(o: Fault, job: Job, turns: seq<Turn>)
    requires Quiet(turns) && job.first < job.end && o.log.placed == map[] && FreeNow(o) > USER_PAGE_RESERVE
    ensures var (r, ok) := Resolve(o, job, turns);
            var m := Missing(o.table, job.first, job.end);
            var k := Min(|m|, FreeNow(o) - USER_PAGE_RESERVE);
            && ok && r.log.placed.Keys == Pages(m[..k]) && r.table.Keys == o.table.Keys + Pages(m[..k])
  {
    var m := Missing(o.table, job.first, job.end);
    var k := Min(|m|, FreeNow(o) - USER_PAGE_RESERVE);
    QuietSupplies(o, job, turns);
    var (t, pool) := Supply(o, job, turns);
    var l := Loop(t, 0, false);
    var w := Walk(l, pool, job.first, job, turns);
    QuietWalk(l, pool, job.first, job, turns, w);
    QuietPutBack(w.s, pool, w.idx, turns);
    if k == 0 {
      assert Pages(m[..k]) == {};
      MissingExactly(o.table, job.first, job.end, job.first);
      QuietRace(Prefetch(o, job, turns).0, turns);
    }
  }

  lemma QuietSupplies(o: Fault, job: Job, turns: seq<Turn>)
    requires Quiet(turns) && FreeNow(o) > USER_PAGE_RESERVE
    ensures var (t, pool) := Supply(o, job, turns);
            && |pool| == Min(|Missing(o.table, job.first, job.end)|, FreeNow(o) - USER_PAGE_RESERVE)
            && t.table == o.table && t.log.placed == o.log.placed
  {
    QuietCounts(o, job.first, job.end, 0, turns);
    var (t, n) := Count(o, job.first, job.end, 0, turns);
    QuietDraw(t, n, turns);
  }

  lemma {:induction false} QuietPutBack(s: Fault, pool: seq<nat>, i: nat, turns: seq<Turn>)
    requires Quiet(turns)
    ensures var r := PutBack(s, pool, i, turns); r.table == s.table && r.log.placed == s.log.placed
    decreases |pool| - i
  {
    if i < |pool| {
      QuietRace(Return(s, pool[i]), turns);
      QuietPutBack(Race(Return(s, pool[i]), turns), pool, i + 1, turns);
    }
  }

  /**
   Which pages a fault at `pageVa` in a region that ends at `regionEnd` maps: pages of the region, at
   most 256 of them from `pageVa` on, whatever the others do.
   */
  ghost predicate StaysInWindow(placed: map<int, nat>, pageVa: int, regionEnd: int) {
    forall va :: va in placed ==> pageVa <= va < regionEnd && va < pageVa + 256 * 4096 && (va - pageVa) % 4096 == 0
  }

  /** All of those pages are mapped. */
  ghost predicate WindowMapped(table: map<int, nat>, pageVa: int, regionEnd: int) {
    forall va :: pageVa <= va < regionEnd && va < pageVa + 256 * 4096 && (va - pageVa) % 4096 == 0 ==> va in table
  }

  lemma ImagesStay(r: Fault, o: Fault, pageVa: int, regionEnd: int, job: Job)
    requires Images(r, o, job) && job == Window(pageVa, regionEnd, job.file, job.seg)
    ensures StaysInWindow(r.log.placed, pageVa, regionEnd)
  {
  }

  /** A table with all missing pages of the window. */
  lemma MissingMapped(before: map<int, nat>, table: map<int, nat>, pageVa: int, regionEnd: int)
    requires var end := Min(pageVa + 256 * 4096, regionEnd);
             table.Keys == before.Keys + Pages(Missing(before, pageVa, end))
    ensures WindowMapped(table, pageVa, regionEnd)
  {
    forall va | pageVa <= va < regionEnd && va < pageVa + 256 * 4096 && (va - pageVa) % 4096 == 0
      ensures va in table
    {
      MissingExactly(before, pageVa, Min(pageVa + 256 * 4096, regionEnd), va);
    }
  }

  /** With 256 pages free above the reserve and quiet others, the whole window is mapped afterwards. */
  lemma QuietWindowMapped(o: Fault, pageVa: int, regionEnd: int, job: Job, turns: seq<Turn>)
    requires job == Window(pageVa, regionEnd, job.file, job.seg) && pageVa < regionEnd
    requires Quiet(turns) && o.log.placed == map[] && FreeNow(o) >= USER_PAGE_RESERVE + 256
    ensures var (r, ok) := Resolve(o, job, turns);
            && ok && WindowMapped(r.table, pageVa, regionEnd)
            && r.table.Keys == o.table.Keys + r.log.placed.Keys
  {
    QuietFault(o, job, turns);
    var m := Missing(o.table, job.first, job.end);
    MissingAtMost(o.table, job.first, job.end, 256);
    assert m[..|m|] == m;
    MissingMapped(o.table, Resolve(o, job, turns).0.table, pageVa, regionEnd);
  }
}
