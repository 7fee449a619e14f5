/**
 Through a page fault every frame stays in one place. The lemmas follow the functions of module
 DemandPaging: first one action of another processor and a turn of them, then the eviction of a page
 and a sweep of evictions, then drawing single frames and batches, giving frames back and mapping
 them, then one page of the window, the whole window and the return of the frames that were not used.
 `Sound` is kept by every one of them, for every schedule of the other processors.
 */
module FramePlaces {
  import opened Prelude
  import opened PagePool
  import opened RefCounts
  import opened FrameManager
  import opened DemandPaging

  // ---------------------------------------------------------------- frames and places

  lemma ReleaseUnshared(b: Books, f: nat)
    requires f < b.ledger.pool.total && f !in FreeOf(b) && f !in b.refs && Wf(b.ledger.pool)
    ensures var c := ReleasePage(b, f);
            && FreeOf(c) == FreeOf(b) + {f} && c.refs == b.refs && c.ledger.pool.total == b.ledger.pool.total
            && Wf(c.ledger.pool)
  {
  }

  lemma FramesGrow(m: map<int, nat>, k: int, v: nat)
    requires k !in m
    ensures FramesOf(m[k := v]) == FramesOf(m) + {v}
  {
    assert m[k := v][k] == v;
    forall x | x in FramesOf(m)
      ensures x in FramesOf(m[k := v])
    {
      var j :| j in m && m[j] == x;
      assert m[k := v][j] == x;
    }
  }

  /** A frame in one of the places is a frame the fault is about, in range and not shared. */
  lemma PlaceOf(s: Fault, out: set<nat>, o: Fault, f: nat)
    requires Steady(s, o) && Partition(s, out, o)
    requires f in FreeOf(s.books) + s.foreign + FramesOf(s.log.placed) + FramesOf(s.log.theirs) + out
    ensures PlacedOnce(s, out, o, f) && f in Known(s, o)
    ensures f < s.books.ledger.pool.total && f !in s.books.refs
  {
    assert PlacedOnce(s, out, o, f);
  }

  /** Frames that move from one place to another stay placed once. */
  lemma Moves(s: Fault, out: set<nat>, t: Fault, still: set<nat>, o: Fault)
    requires Partition(s, out, o) && t.log.freed == s.log.freed
    requires forall f: nat :: Places(t, still, f) == Places(s, out, f)
    ensures Partition(t, still, o)
  {
    forall f: nat
      ensures PlacedOnce(t, still, o, f)
    {
      assert PlacedOnce(s, out, o, f);
    }
  }

  /** The address space, its list and the record of evictions are as they were. */
  ghost predicate SameSpace(t: Fault, s: Fault) {
    && t.table == s.table && t.owned == s.owned && t.readOnly == s.readOnly && t.contents == s.contents
    && t.log.placed == s.log.placed && t.log.theirs == s.log.theirs
    && t.log.gone == s.log.gone && t.log.dropped == s.log.dropped && t.log.freed == s.log.freed
    && t.books.refs == s.books.refs && t.books.ledger.pool.total == s.books.ledger.pool.total
    && Wf(t.books.ledger.pool)
  }

  lemma SpaceKeeps(s: Fault, t: Fault, o: Fault, job: Job)
    requires SpaceOk(s, o, job) && SameSpace(t, s)
    ensures SpaceOk(t, o, job)
  {
    forall f: nat
      ensures Listed(t, o, f)
    {
      assert Listed(s, o, f);
    }
    forall va | va in t.table
      ensures Explained(t, o, va)
    {
      assert Explained(s, o, va);
    }
  }

  /** A frame the fault is about is mapped only where the fault or the others have mapped it. */
  lemma Unmapped(s: Fault, o: Fault, f: nat)
    requires Composed(s, o) && f in Known(s, o) && !NewlyMapped(s, f)
    ensures Aliases(s.table, f) == {}
  {
    forall va | va in s.table
      ensures s.table[va] != f
    {
      assert Explained(s, o, va);
      if va in s.log.placed {
        assert s.log.placed[va] in FramesOf(s.log.placed);
      } else if va in s.log.theirs {
        assert s.log.theirs[va] in FramesOf(s.log.theirs);
      }
    }
  }

  lemma AliasesGrow(table: map<int, nat>, va: int, f: nat, g: nat)
    requires va !in table
    ensures Aliases(table[va := f], g) == if g == f then Aliases(table, g) + {va} else Aliases(table, g)
  {
  }

  // ---------------------------------------------------------------- what the others do

  lemma TakeMoves(s: Fault, count: nat, out: set<nat>, o: Fault)
    requires Steady(s, o) && Partition(s, out, o)
    ensures SameSpace(Do(s, Take(count)), s) && Partition(Do(s, Take(count)), out, o)
  {
    var t := Do(s, Take(count));
    forall f: nat
      ensures Places(t, out, f) == Places(s, out, f)
    {
      assert PlacedOnce(s, out, o, f);
    }
    Moves(s, out, t, out, o);
  }

  lemma GiveMoves(s: Fault, page: nat, out: set<nat>, o: Fault)
    requires Steady(s, o) && Partition(s, out, o)
    ensures SameSpace(Do(s, Give(page)), s) && Partition(Do(s, Give(page)), out, o)
  {
    if page in s.foreign {
      PlaceOf(s, out, o, page);
      ReleaseUnshared(s.books, page);
      Moves(s, out, Do(s, Give(page)), out, o);
    }
  }

  lemma MapMoves(s: Fault, va: int, page: nat, out: set<nat>, o: Fault)
    requires Partition(s, out, o) && page in s.foreign && va !in s.table && va !in s.log.theirs
    ensures Partition(Do(s, Map(va, page)), out, o)
  {
    assert PlacedOnce(s, out, o, page);
    FramesGrow(s.log.theirs, va, page);
    Moves(s, out, Do(s, Map(va, page)), out, o);
  }

  lemma MapComposed(s: Fault, va: int, page: nat, o: Fault)
    requires Composed(s, o) && page in s.foreign && va !in s.table
    ensures Composed(Do(s, Map(va, page)), o) && va !in s.log.theirs
  {
    var t := Do(s, Map(va, page));
    forall wa | wa in t.table
      ensures Explained(t, o, wa)
    {
      assert wa != va ==> Explained(s, o, wa);
    }
  }

  /** A new mapping of a frame that nobody maps and the space does not list. */
  lemma ListedNew(s: Fault, t: Fault, o: Fault, va: int, f: nat, g: nat)
    requires AllListed(s, o) && va !in s.table && t.table == s.table[va := f] && t.owned == Track(s.owned, f)
    requires f in Known(s, o) && !NewlyMapped(s, f) && Aliases(s.table, f) == {} && f < s.books.ledger.pool.total
    requires t.log.freed == s.log.freed && t.log.dropped == s.log.dropped && NewlyMapped(t, f)
    requires t.books.ledger.pool.total == s.books.ledger.pool.total
    requires forall h :: h != f ==> (NewlyMapped(t, h) <==> NewlyMapped(s, h))
    ensures Listed(t, o, g)
  {
    assert Listed(s, o, f) && Listed(s, o, g);
    AliasesGrow(s.table, va, f, g);
    if g == f {
      assert f !in s.owned;
    }
  }

  lemma MapListed(s: Fault, va: int, page: nat, out: set<nat>, o: Fault)
    requires Steady(s, o) && Partition(s, out, o) && Composed(s, o) && AllListed(s, o)
    requires page in s.foreign && va !in s.table && va !in s.log.theirs
    ensures AllListed(Do(s, Map(va, page)), o)
  {
    var t := Do(s, Map(va, page));
    PlaceOf(s, out, o, page);
    Unmapped(s, o, page);
    FramesGrow(s.log.theirs, va, page);
    forall g: nat
      ensures Listed(t, o, g)
    {
      ListedNew(s, t, o, va, page, g);
    }
  }

  lemma MapKeeps(s: Fault, va: int, page: nat, out: set<nat>, o: Fault, job: Job)
    requires SpaceOk(s, o, job) && Partition(s, out, o) && page in s.foreign && va !in s.table
    ensures SpaceOk(Do(s, Map(va, page)), o, job) && Partition(Do(s, Map(va, page)), out, o)
  {
    MapComposed(s, va, page, o);
    MapMoves(s, va, page, out, o);
    MapListed(s, va, page, out, o);
  }

  /** Only draws, returns and the fault's own mappings are accounted for. */
  lemma SameAccount(log: Log, more: Log, out: set<nat>)
    requires Accounted(log, out)
    requires more.draws == log.draws && more.returned == log.returned && more.placed == log.placed
    ensures Accounted(more, out)
  {
    forall f: nat
      ensures UsedOnce(more, out, f)
    {
      assert UsedOnce(log, out, f);
    }
  }

  lemma DoKeeps(s: Fault, a: Act, out: set<nat>, o: Fault, job: Job)
    requires Sound(s, out, o, job)
    ensures Sound(Do(s, a), out, o, job)
  {
    SameAccount(s.log, Do(s, a).log, out);
    match a
    case Take(count) => TakeMoves(s, count, out, o); SpaceKeeps(s, Do(s, a), o, job);
    case Give(page) => GiveMoves(s, page, out, o); SpaceKeeps(s, Do(s, a), o, job);
    case Map(va, page) => if page in s.foreign && va !in s.table { MapKeeps(s, va, page, out, o, job); }
  }

  /** The fault maps nothing of its own, draws are only added, and evicted pages stay on record. */
  ghost predicate Forward(t: Fault, s: Fault) {
    t.log.placed == s.log.placed && s.log.draws <= t.log.draws && s.log.gone <= t.log.gone
  }

  /** Mappings that are there stay as well. */
  ghost predicate Onwards(t: Fault, s: Fault) {
    StaysMapped(t.table, s.table) && Forward(t, s)
  }

  lemma OnwardsTransitive(u: Fault, t: Fault, s: Fault)
    requires Onwards(u, t) && Onwards(t, s)
    ensures Onwards(u, s)
  {
  }

  lemma {:induction false} DoAllKeeps(s: Fault, acts: seq<Act>, out: set<nat>, o: Fault, job: Job)
    requires Sound(s, out, o, job)
    ensures Sound(DoAll(s, acts), out, o, job)
    decreases |acts|
  {
    if acts != [] {
      DoKeeps(s, acts[0], out, o, job);
      DoAllKeeps(Do(s, acts[0]), acts[1..], out, o, job);
    }
  }

  lemma {:induction false} DoAllOnwards(s: Fault, acts: seq<Act>)
    ensures Onwards(DoAll(s, acts), s)
    decreases |acts|
  {
    if acts != [] {
      DoAllOnwards(Do(s, acts[0]), acts[1..]);
      OnwardsTransitive(DoAll(s, acts), Do(s, acts[0]), s);
    }
  }

  lemma ClockKeeps(s: Fault, clock: nat, out: set<nat>, o: Fault, job: Job)
    requires Sound(s, out, o, job)
    ensures Sound(s.(clock := clock), out, o, job)
  {
    Moves(s, out, s.(clock := clock), out, o);
    SpaceKeeps(s, s.(clock := clock), o, job);
  }

  lemma ActsKeep(s: Fault, acts: seq<Act>, out: set<nat>, o: Fault, job: Job)
    requires Sound(s, out, o, job)
    ensures Sound(DoAll(s.(clock := s.clock + 1), acts), out, o, job)
  {
    ClockKeeps(s, s.clock + 1, out, o, job);
    DoAllKeeps(s.(clock := s.clock + 1), acts, out, o, job);
  }

  /** Whatever the others do in a turn, frames stay in one place and mapped pages stay mapped. */
  lemma RaceKeeps(s: Fault, turns: seq<Turn>, out: set<nat>, o: Fault, job: Job)
    requires Sound(s, out, o, job)
    ensures Sound(Race(s, turns), out, o, job) && Onwards(Race(s, turns), s)
  {
    ActsKeep(s, TurnAt(turns, s.clock).acts, out, o, job);
    RaceOnwards(s, turns);
  }

  lemma RaceOnwards(s: Fault, turns: seq<Turn>)
    ensures Onwards(Race(s, turns), s)
  {
    DoAllOnwards(s.(clock := s.clock + 1), TurnAt(turns, s.clock).acts);
  }

  /** An action changes the free pages by what it takes. */
  lemma NetIsRight(s: Fault, a: Act, out: set<nat>, o: Fault)
    requires Steady(s, o) && Partition(s, out, o)
    ensures FreeNow(Do(s, a)) == FreeNow(s) - Net(s, a)
  {
    match a
    case Take(count) => if AllocRun(s.books.ledger.pool, count).1.Some? { RunBalance(s.books.ledger.pool, count); }
    case Give(page) =>
      if page in s.foreign {
        PlaceOf(s, out, o, page);
        ReleaseUnshared(s.books, page);
      }
    case Map(_, _) =>
  }

  lemma {:induction false} NetAllIsRight(s: Fault, acts: seq<Act>, out: set<nat>, o: Fault, job: Job)
    requires Sound(s, out, o, job)
    ensures FreeNow(DoAll(s, acts)) == FreeNow(s) - NetAll(s, acts)
    decreases |acts|
  {
    if acts != [] {
      NetIsRight(s, acts[0], out, o);
      DoKeeps(s, acts[0], out, o, job);
      NetAllIsRight(Do(s, acts[0]), acts[1..], out, o, job);
    }
  }

  /** A turn changes the free pages by what the others take in it. */
  lemma RaceTakesThat(s: Fault, turns: seq<Turn>, out: set<nat>, o: Fault, job: Job)
    requires Sound(s, out, o, job)
    ensures FreeNow(Race(s, turns)) == FreeNow(s) - RaceTakes(s, turns)
  {
    var t := s.(clock := s.clock + 1);
    ClockKeeps(s, s.clock + 1, out, o, job);
    NetAllIsRight(t, TurnAt(turns, s.clock).acts, out, o, job);
    assert FreeNow(t) == FreeNow(s);
  }

  // ---------------------------------------------------------------- eviction

  lemma ReleaseAny(b: Books, f: nat)
    requires f < b.ledger.pool.total && f !in FreeOf(b) && Wf(b.ledger.pool)
    ensures var c := ReleasePage(b, f);
            && FreeOf(c) == (if RefDec(b.refs, f).1 then FreeOf(b) + {f} else FreeOf(b))
            && c.refs == RefDec(b.refs, f).0 && c.ledger.pool.total == b.ledger.pool.total && Wf(c.ledger.pool)
  {
  }

  /** The page is there to be evicted, and the fault has mapped nothing yet. */
  ghost predicate Evictable(s: Fault, va: int) {
    va in s.table && va in s.readOnly && s.log.placed == map[]
  }

  /** Whether the frame of an evicted page goes back to the pool. */
  ghost predicate GoesBack(s: Fault, va: int)
    requires va in s.table
  {
    CountIn(s.owned, s.table[va]) == 1 && RefDec(s.books.refs, s.table[va]).1
  }

  /** The page was mapped by the others: then its frame goes back, and was in no other place. */
  lemma EvictTheirs(s: Fault, va: int, out: set<nat>, o: Fault)
    requires Evictable(s, va) && va in s.log.theirs
    requires Steady(s, o) && Partition(s, out, o) && Composed(s, o) && AllListed(s, o)
    ensures var f := s.table[va];
            && f in Known(s, o) && f in FramesOf(s.log.theirs) && GoesBack(s, va) && f !in FreeOf(s.books)
            && f < s.books.ledger.pool.total && Aliases(s.table, f) == {va} && PlacedOnce(s, out, o, f)
            && f in s.owned
  {
    var f := s.table[va];
    assert s.log.theirs[va] == f && f in FramesOf(s.log.theirs);
    PlaceOf(s, out, o, f);
    assert Listed(s, o, f);
    OneAlias(s.table, va);
  }

  lemma OneAlias(table: map<int, nat>, va: int)
    requires va in table && |Aliases(table, table[va])| <= 1
    ensures Aliases(table, table[va]) == {va}
  {
    SubsetSize({va}, Aliases(table, table[va]));
  }

  /** The page was there before the fault: its frame is none the fault is about. */
  lemma EvictOriginal(s: Fault, va: int, out: set<nat>, o: Fault)
    requires Evictable(s, va) && va !in s.log.theirs
    requires Steady(s, o) && Partition(s, out, o) && Composed(s, o) && AllListed(s, o)
    ensures var f := s.table[va];
            && f !in Known(s, o) && !NewlyMapped(s, f) && Places(s, out, f) == 0 && f !in FreeOf(s.books)
            && (CountIn(s.owned, f) >= 1 ==> f < s.books.ledger.pool.total && f in s.owned)
            && (CountIn(s.owned, f) == 1 ==> Aliases(s.table, f) == {va})
  {
    var f := s.table[va];
    assert Explained(s, o, va) && PlacedOnce(s, out, o, f) && Listed(s, o, f);
    if CountIn(s.owned, f) == 1 {
      OneAlias(s.table, va);
    }
  }

  /** What an eviction does to the books. */
  ghost predicate EvictBooks(s: Fault, t: Fault, va: int)
    requires va in s.table
  {
    var f := s.table[va];
    && t.books.ledger.pool.total == s.books.ledger.pool.total && Wf(t.books.ledger.pool)
    && FreeOf(t.books) == (if GoesBack(s, va) then FreeOf(s.books) + {f} else FreeOf(s.books))
    && t.books.refs == (if CountIn(s.owned, f) == 1 then RefDec(s.books.refs, f).0 else s.books.refs)
    && t.log.freed == (if GoesBack(s, va) then s.log.freed + {f} else s.log.freed)
  }

  lemma EvictIs(s: Fault, va: int, out: set<nat>, o: Fault)
    requires Evictable(s, va) && Steady(s, o) && Partition(s, out, o) && Composed(s, o) && AllListed(s, o)
    ensures EvictBooks(s, Evict(s, va), va)
  {
    var f := s.table[va];
    if va in s.log.theirs {
      EvictTheirs(s, va, out, o);
    } else {
      EvictOriginal(s, va, out, o);
    }
    if CountIn(s.owned, f) == 1 {
      ReleaseAny(s.books, f);
    }
  }

  lemma EvictSteady(s: Fault, t: Fault, va: int, o: Fault)
    requires va in s.table && EvictBooks(s, t, va) && t.log.dropped == s.log.dropped + {s.table[va]}
    requires Steady(s, o) && SharedOk(s, o) && (GoesBack(s, va) ==> s.table[va] < s.books.ledger.pool.total)
    ensures Steady(t, o) && SharedOk(t, o)
  {
  }

  lemma TheirsShrink(s: Fault, va: int)
    requires va in s.log.theirs && StaysMapped(s.table, s.log.theirs)
    requires va in s.table && Aliases(s.table, s.table[va]) == {va}
    ensures FramesOf(s.log.theirs - {va}) == FramesOf(s.log.theirs) - {s.table[va]}
  {
    var less := s.log.theirs - {va};
    forall x | x in FramesOf(s.log.theirs) && x != s.table[va]
      ensures x in FramesOf(less)
    {
      var j :| j in s.log.theirs && s.log.theirs[j] == x;
      assert less[j] == x;
    }
    forall x | x in FramesOf(less)
      ensures x != s.table[va]
    {
      var j :| j in less && less[j] == x;
      assert s.table[j] == x;
      assert j !in Aliases(s.table, s.table[va]);
    }
  }

  lemma EvictPartition(s: Fault, t: Fault, va: int, out: set<nat>, o: Fault)
    requires Evictable(s, va) && Steady(s, o) && Partition(s, out, o) && Composed(s, o) && AllListed(s, o)
    requires EvictBooks(s, t, va) && t.foreign == s.foreign && t.log.placed == s.log.placed
    requires t.log.theirs == s.log.theirs - {va}
    ensures Partition(t, out, o)
  {
    var f := s.table[va];
    if va in s.log.theirs {
      EvictTheirs(s, va, out, o);
      TheirsShrink(s, va);
    } else {
      EvictOriginal(s, va, out, o);
      assert s.log.theirs - {va} == s.log.theirs;
    }
    forall g: nat
      ensures PlacedOnce(t, out, o, g)
    {
      assert PlacedOnce(s, out, o, g);
    }
  }

  lemma EvictComposed(s: Fault, t: Fault, va: int, o: Fault)
    requires Evictable(s, va) && Composed(s, o) && EvictBooks(s, t, va)
    requires t.table == s.table - {va} && t.log.placed == s.log.placed && t.log.theirs == s.log.theirs - {va}
    requires t.log.gone == s.log.gone + {va} && (GoesBack(s, va) ==> Aliases(s.table, s.table[va]) == {va})
    ensures Composed(t, o)
  {
    forall wa | wa in t.table
      ensures Explained(t, o, wa)
    {
      assert Explained(s, o, wa);
      assert wa in Aliases(s.table, s.table[va]) <==> s.table[wa] == s.table[va];
    }
  }

  lemma AliasesShrink(table: map<int, nat>, va: int, g: nat)
    requires va in table
    ensures Aliases(table - {va}, g) == if g == table[va] then Aliases(table, g) - {va} else Aliases(table, g)
    ensures g == table[va] ==> |Aliases(table - {va}, g)| == |Aliases(table, g)| - 1
  {
    assert Aliases(table - {va}, g) == if g == table[va] then Aliases(table, g) - {va} else Aliases(table, g);
  }

  lemma EvictListedOther(s: Fault, t: Fault, va: int, o: Fault, g: nat)
    requires va in s.table && g != s.table[va] && Listed(s, o, g) && EvictBooks(s, t, va)
    requires t.table == s.table - {va} && t.owned == Forget(s.owned, s.table[va])
    requires t.log.dropped == s.log.dropped + {s.table[va]} && (NewlyMapped(t, g) <==> NewlyMapped(s, g))
    ensures Listed(t, o, g)
  {
    AliasesShrink(s.table, va, g);
  }

  lemma EvictListedThis(s: Fault, t: Fault, va: int, o: Fault)
    requires va in s.table && Listed(s, o, s.table[va]) && EvictBooks(s, t, va)
    requires t.table == s.table - {va} && t.owned == Forget(s.owned, s.table[va])
    requires t.log.dropped == s.log.dropped + {s.table[va]} && !NewlyMapped(t, s.table[va])
    requires NewlyMapped(s, s.table[va]) || s.table[va] !in Known(s, o)
    ensures Listed(t, o, s.table[va])
  {
    AliasesShrink(s.table, va, s.table[va]);
  }

  lemma EvictListed(s: Fault, t: Fault, va: int, out: set<nat>, o: Fault)
    requires Evictable(s, va) && Steady(s, o) && Partition(s, out, o) && Composed(s, o) && AllListed(s, o)
    requires EvictBooks(s, t, va) && t.log.placed == s.log.placed && t.log.theirs == s.log.theirs - {va}
    requires t.table == s.table - {va} && t.owned == Forget(s.owned, s.table[va])
    requires t.log.dropped == s.log.dropped + {s.table[va]}
    ensures AllListed(t, o)
  {
    var f := s.table[va];
    if va in s.log.theirs {
      EvictTheirs(s, va, out, o);
      TheirsShrink(s, va);
    } else {
      EvictOriginal(s, va, out, o);
      assert s.log.theirs - {va} == s.log.theirs;
    }
    assert FramesOf(map[]) == {};
    forall g: nat
      ensures Listed(t, o, g)
    {
      assert Listed(s, o, g);
      if g == f {
        EvictListedThis(s, t, va, o);
      } else {
        EvictListedOther(s, t, va, o, g);
      }
    }
  }

  lemma EvictEvicted(s: Fault, t: Fault, va: int, out: set<nat>, o: Fault)
    requires Evictable(s, va) && Steady(s, o) && Partition(s, out, o) && Composed(s, o) && AllListed(s, o)
    requires EvictedOk(s, o) && EvictBooks(s, t, va) && t.readOnly == s.readOnly
    requires t.log.gone == s.log.gone + {va} && t.log.dropped == s.log.dropped + {s.table[va]}
    ensures EvictedOk(t, o)
  {
    if va in s.log.theirs {
      EvictTheirs(s, va, out, o);
    } else {
      assert Explained(s, o, va);
      assert s.table[va] in FramesAt(o.table, t.log.gone);
    }
    assert FramesAt(o.table, s.log.gone) <= FramesAt(o.table, t.log.gone);
  }

  /** An eviction before the fault has mapped anything leaves every frame in one place. */
  lemma EvictKeeps(s: Fault, va: int, out: set<nat>, o: Fault, job: Job)
    requires Sound(s, out, o, job) && s.log.placed == map[]
    ensures Sound(Evict(s, va), out, o, job) && Forward(Evict(s, va), s)
  {
    if Evictable(s, va) {
      var t := Evict(s, va);
      EvictIs(s, va, out, o);
      if va in s.log.theirs {
        EvictTheirs(s, va, out, o);
      } else {
        EvictOriginal(s, va, out, o);
      }
      EvictSteady(s, t, va, o);
      EvictPartition(s, t, va, out, o);
      EvictComposed(s, t, va, o);
      EvictListed(s, t, va, out, o);
      EvictEvicted(s, t, va, out, o);
      SameAccount(s.log, t.log, out);
    }
  }

  lemma {:induction false} SweepKeeps(s: Fault, vas: seq<int>, turns: seq<Turn>, out: set<nat>, o: Fault, job: Job)
    requires Sound(s, out, o, job) && s.log.placed == map[]
    ensures Sound(Sweep(s, vas, turns), out, o, job)
    decreases |vas|
  {
    if vas != [] {
      EvictKeeps(s, vas[0], out, o, job);
      RaceKeeps(Evict(s, vas[0]), turns, out, o, job);
      SweepKeeps(Race(Evict(s, vas[0]), turns), vas[1..], turns, out, o, job);
    }
  }

  lemma {:induction false} SweepForward(s: Fault, vas: seq<int>, turns: seq<Turn>)
    ensures Forward(Sweep(s, vas, turns), s)
    decreases |vas|
  {
    if vas != [] {
      RaceOnwards(Evict(s, vas[0]), turns);
      SweepForward(Race(Evict(s, vas[0]), turns), vas[1..], turns);
    }
  }

  // ---------------------------------------------------------------- what the fault itself does

  /** Only the log of draws and refusals changes. */
  lemma RefuseKeeps(s: Fault, out: set<nat>, o: Fault, job: Job)
    requires Sound(s, out, o, job)
    ensures Sound(Refuse(s), out, o, job)
  {
    Moves(s, out, Refuse(s), out, o);
    SpaceKeeps(s, Refuse(s), o, job);
    SameAccount(s.log, Refuse(s).log, out);
  }

  lemma RelieveForward(s: Fault, turns: seq<Turn>)
    ensures Forward(Relieve(s, turns), s)
  {
    var t := Race(s, turns);
    RaceOnwards(s, turns);
    RaceOnwards(t, turns);
    SweepForward(Race(t, turns), TurnAt(turns, t.clock).sweep, turns);
  }

  /** Drawing a frame maps nothing by itself. */
  lemma AllocUserForward(s: Fault, turns: seq<Turn>)
    ensures Forward(AllocUser(s, turns).0, s)
  {
    RelieveForward(s, turns);
    var t := Relieve(s, turns);
    if !Starved(t) {
      RaceOnwards(t, turns);
      AllocFrameForward(Race(t, turns), FreeNow(t), RaceTakes(t, turns), turns);
    }
  }

  lemma AllocFrameForward(s: Fault, seen: nat, taken: int, turns: seq<Turn>)
    ensures Forward(AllocFrame(s, seen, taken, turns).0, s)
  {
    var t := TakeFrame(s, seen, taken).0;
    RaceOnwards(t, turns);
    TakeFrameForward(Race(t, turns), seen, taken + RaceTakes(t, turns));
    TakeFrameForward(s, seen, taken);
  }

  lemma TakeFrameForward(s: Fault, seen: nat, taken: int)
    ensures Forward(TakeFrame(s, seen, taken).0, s)
  {
  }

  ghost predicate DistinctFrames(pool: seq<nat>) {
    forall i, j :: 0 <= i < j < |pool| ==> pool[i] != pool[j]
  }

  lemma Drew(log: Log, out: set<nat>, d: Draw)
    requires Accounted(log, out) && Announced(d) && DistinctFrames(d.frames) && out !! Elems(d.frames)
    ensures Accounted(log.(draws := log.draws + [d]), out + Elems(d.frames))
  {
    var more := log.(draws := log.draws + [d]);
    assert more.draws[..|log.draws|] == log.draws;
    forall f: nat
      ensures UsedOnce(more, out + Elems(d.frames), f)
    {
      assert UsedOnce(log, out, f);
      Occurs(d.frames, f);
    }
  }

  lemma {:induction false} Occurs(s: seq<nat>, f: nat)
    requires DistinctFrames(s)
    ensures multiset(s)[f] == One(f in Elems(s))
  {
    if s != [] {
      var last := |s| - 1;
      Occurs(s[..last], f);
      assert s == s[..last] + [s[last]];
      assert s[last] !in s[..last];
    }
  }

  lemma TakeFrameKeeps(s: Fault, seen: nat, taken: int, out: set<nat>, o: Fault, job: Job)
    requires Sound(s, out, o, job) && seen > USER_PAGE_RESERVE && FreeNow(s) == seen - taken
    ensures var (t, got) := TakeFrame(s, seen, taken);
            && (got.None? ==> Sound(t, out, o, job) && t.log.refusedAt == Some(0) && FreeNow(t) == FreeNow(s))
            && (got.Some? ==> got.value !in out && Sound(t, out + {got.value}, o, job))
  {
    var (t, got) := TakeFrame(s, seen, taken);
    if got.None? {
      RefuseKeeps(s, out, o, job);
    } else {
      PlaceOf(s, out, o, got.value);
      Moves(s, out, t, out + {got.value}, o);
      SpaceKeeps(s, t, o, job);
      assert Elems([got.value]) == {got.value};
      Drew(s.log, out, Draw(seen, FreeNow(s), taken, [got.value]));
    }
  }

  /** After drawing at most one frame: it is out, or none was to be had. */
  ghost predicate Served(t: Fault, got: Option<nat>, out: set<nat>, o: Fault, job: Job) {
    if got.None? then Sound(t, out, o, job) && t.log.refusedAt.Some? && t.log.refusedAt.value <= USER_PAGE_RESERVE
    else got.value !in out && Sound(t, out + {got.value}, o, job)
  }

  lemma {:induction false} DoAllRefused(s: Fault, acts: seq<Act>)
    ensures DoAll(s, acts).log.refusedAt == s.log.refusedAt
    decreases |acts|
  {
    if acts != [] {
      DoAllRefused(Do(s, acts[0]), acts[1..]);
    }
  }

  lemma TakeFrameServes(s: Fault, seen: nat, taken: int, out: set<nat>, o: Fault, job: Job)
    requires Sound(s, out, o, job) && seen > USER_PAGE_RESERVE && FreeNow(s) == seen - taken
    ensures var (t, got) := TakeFrame(s, seen, taken);
            Served(t, got, out, o, job) && (got.None? ==> FreeNow(t) == FreeNow(s))
  {
    TakeFrameKeeps(s, seen, taken, out, o, job);
  }

  /** The turn of the others after an allocation that found no frame. */
  lemma RetryServes(t: Fault, seen: nat, taken: int, turns: seq<Turn>, out: set<nat>, o: Fault, job: Job)
    requires Served(t, None, out, o, job) && FreeNow(t) == seen - taken
    ensures var u := Race(t, turns);
            Served(u, None, out, o, job) && FreeNow(u) == seen - taken - RaceTakes(t, turns)
  {
    RaceKeeps(t, turns, out, o, job);
    RaceTakesThat(t, turns, out, o, job);
    DoAllRefused(t.(clock := t.clock + 1), TurnAt(turns, t.clock).acts);
  }

  /** What comes of the turn: a second try, or none. */
  lemma SecondTryServes(u: Fault, seen: nat, taken: int, again: bool, r: (Fault, Option<nat>), out: set<nat>, o: Fault,
                        job: Job)
    requires Served(u, None, out, o, job) && seen > USER_PAGE_RESERVE && FreeNow(u) == seen - taken
    requires r == if again then TakeFrame(u, seen, taken) else (u, None)
    ensures Served(r.0, r.1, out, o, job)
  {
    TakeFrameServes(u, seen, taken, out, o, job);
  }

  lemma AllocFrameKeeps(s: Fault, seen: nat, taken: int, turns: seq<Turn>, out: set<nat>, o: Fault, job: Job)
    requires Sound(s, out, o, job) && seen > USER_PAGE_RESERVE && FreeNow(s) == seen - taken
    ensures var (t, got) := AllocFrame(s, seen, taken, turns); Served(t, got, out, o, job)
  {
    TakeFrameServes(s, seen, taken, out, o, job);
    var (t, got) := TakeFrame(s, seen, taken);
    if got.None? {
      RetriedKeeps(s, t, seen, taken, turns, out, o, job);
    }
  }

  lemma RetriedKeeps(s: Fault, t: Fault, seen: nat, taken: int, turns: seq<Turn>, out: set<nat>, o: Fault, job: Job)
    requires TakeFrame(s, seen, taken) == (t, None) && seen > USER_PAGE_RESERVE
    requires Served(t, None, out, o, job) && FreeNow(t) == seen - taken
    ensures var (r, got) := AllocFrame(s, seen, taken, turns); Served(r, got, out, o, job)
  {
    RetryServes(t, seen, taken, turns, out, o, job);
    SecondTryServes(Race(t, turns), seen, taken + RaceTakes(t, turns), TurnAt(turns, t.clock).reclaimed,
                    AllocFrame(s, seen, taken, turns), out, o, job);
  }

  lemma RelieveKeeps(s: Fault, turns: seq<Turn>, out: set<nat>, o: Fault, job: Job)
    requires Sound(s, out, o, job) && s.log.placed == map[]
    ensures Sound(Relieve(s, turns), out, o, job)
  {
    var t := Race(s, turns);
    RaceKeeps(s, turns, out, o, job);
    RaceKeeps(t, turns, out, o, job);
    SweepKeeps(Race(t, turns), TurnAt(turns, t.clock).sweep, turns, out, o, job);
  }

  lemma AllocUserKeeps(s: Fault, turns: seq<Turn>, out: set<nat>, o: Fault, job: Job)
    requires Sound(s, out, o, job) && s.log.placed == map[]
    ensures var (t, got) := AllocUser(s, turns); Served(t, got, out, o, job) && Forward(t, s)
  {
    AllocUserForward(s, turns);
    RelieveKeeps(s, turns, out, o, job);
    var t := Relieve(s, turns);
    if Starved(t) {
      RefuseKeeps(t, out, o, job);
    } else {
      RaceKeeps(t, turns, out, o, job);
      RaceTakesThat(t, turns, out, o, job);
      AllocFrameKeeps(Race(t, turns), FreeNow(t), RaceTakes(t, turns), turns, out, o, job);
    }
  }

  /** All frames of the pool are out. */
  ghost predicate Stocked(s: Fault, pool: seq<nat>, o: Fault, job: Job) {
    DistinctFrames(pool) && Sound(s, Elems(pool), o, job)
  }

  lemma StockOne(t: Fault, pool: seq<nat>, f: nat, o: Fault, job: Job)
    requires DistinctFrames(pool) && f !in Elems(pool) && Sound(t, Elems(pool) + {f}, o, job)
    ensures Stocked(t, pool + [f], o, job)
  {
    ElemsSnoc(pool, f);
  }

  lemma StockFrom(s: Fault, pool: seq<nat>, turns: seq<Turn>, o: Fault, job: Job)
    requires Stocked(s, pool, o, job) && s.log.placed == map[]
    ensures var (t, got) := AllocUser(s, turns);
            && t.log.placed == map[]
            && (got.None? ==> Stocked(t, pool, o, job)) && (got.Some? ==> Stocked(t, pool + [got.value], o, job))
  {
    AllocUserKeeps(s, turns, Elems(pool), o, job);
    var (t, got) := AllocUser(s, turns);
    if got.Some? {
      StockOne(t, pool, got.value, o, job);
    }
  }

  lemma {:induction false} StockRest(start: Fault, s: Fault, pool: seq<nat>, k: nat, n: nat, turns: seq<Turn>,
                                     o: Fault, job: Job) returns (t: Fault, all: seq<nat>)
    requires SinglyLeads(start, s, pool, k, turns) && k <= n && Stocked(s, pool, o, job) && s.log.placed == map[]
    ensures TakeSingly(start, [], n, turns) == (t, all) && Stocked(t, all, o, job) && t.log.placed == map[]
    decreases n - k
  {
    if k == n {
      SinglyEnds(start, s, pool, n, turns);
      t, all := s, pool;
    } else {
      StockFrom(s, pool, turns, o, job);
      var r := AllocUser(s, turns);
      if r.1.None? {
        SinglyStops(start, s, pool, k, turns, r.0, n);
        t, all := r.0, pool;
      } else {
        SinglyMore(start, s, pool, k, turns, r.0, r.1.value);
        t, all := StockRest(start, r.0, pool + [r.1.value], k + 1, n, turns, o, job);
      }
    }
  }

  /** Frames drawn one by one are distinct, and all out. */
  lemma TakeSinglyKeeps(s: Fault, n: nat, turns: seq<Turn>, o: Fault, job: Job)
    requires Stocked(s, [], o, job) && s.log.placed == map[]
    ensures var (t, all) := TakeSingly(s, [], n, turns); Stocked(t, all, o, job) && t.log.placed == map[]
  {
    SinglyStart(s, turns);
    var t, all := StockRest(s, s, [], 0, n, turns, o, job);
  }

  lemma BatchMoves(s: Fault, t: Fault, pool: seq<nat>, o: Fault)
    requires Partition(s, {}, o) && t.log.freed == s.log.freed
    requires (forall x :: x in pool ==> x in FreeOf(s.books)) && FreeOf(t.books) == FreeOf(s.books) - Elems(pool)
    requires t.foreign == s.foreign && t.log.placed == s.log.placed && t.log.theirs == s.log.theirs
    ensures Partition(t, Elems(pool), o)
  {
    forall f: nat
      ensures Places(t, Elems(pool), f) == Places(s, {}, f)
    {
      assert PlacedOnce(s, {}, o, f);
    }
    Moves(s, {}, t, Elems(pool), o);
  }

  lemma TakePoolKeeps(s: Fault, seen: nat, taken: int, n: nat, turns: seq<Turn>, o: Fault, job: Job)
    requires Sound(s, {}, o, job) && s.log.placed == map[]
    requires 0 < n && n + USER_PAGE_RESERVE <= seen && FreeNow(s) == seen - taken
    ensures var (t, pool) := TakePool(s, seen, taken, n, turns); Stocked(t, pool, o, job) && t.log.placed == map[]
  {
    var (t, pool) := TakePool(s, seen, taken, n, turns);
    assert Elems([]) == {};
    if AllocBatch(s.books.ledger.pool, n).1.None? {
      TakeSinglyKeeps(s, n, turns, o, job);
    } else {
      BatchIsFree(s.books.ledger.pool, n);
      BatchMoves(s, t, pool, o);
      SpaceKeeps(s, t, o, job);
      assert {} + Elems(pool) == Elems(pool);
      Drew(s.log, {}, Draw(seen, FreeNow(s), taken, pool));
    }
  }

  lemma {:induction false} CountKeeps(s: Fault, va: int, n: nat, turns: seq<Turn>, r: (Fault, nat), o: Fault, job: Job)
    requires Sound(s, {}, o, job) && CountLeads(s, va, job.end, n, turns, r)
    ensures Sound(r.0, {}, o, job)
    decreases job.end - va
  {
    if va < job.end {
      var t := Race(s, turns);
      RaceKeeps(s, turns, {}, o, job);
      CountStep(s, va, job.end, n, turns, r, t);
      CountKeeps(t, va + PAGE_SIZE, n + One(va !in t.table), turns, r, o, job);
    }
  }

  lemma {:induction false} CountForward(s: Fault, va: int, end: int, n: nat, turns: seq<Turn>)
    ensures Forward(Count(s, va, end, n, turns).0, s)
    decreases end - va
  {
    if va < end {
      var t := Race(s, turns);
      RaceOnwards(s, turns);
      CountForward(t, va + PAGE_SIZE, end, n + One(va !in t.table), turns);
    }
  }

  lemma DrawForKeeps(s: Fault, n: nat, turns: seq<Turn>, o: Fault, job: Job)
    requires Sound(s, {}, o, job) && s.log.placed == map[]
    ensures var (t, pool) := DrawFor(s, n, turns); Stocked(t, pool, o, job) && t.log.placed == map[]
  {
    RaceKeeps(s, turns, {}, o, job);
    RaceTakesThat(s, turns, {}, o, job);
    assert Elems([]) == {};
    var wanted := Min(n, UserReadaheadBudget(FreeNow(s)));
    if wanted > 0 {
      TakePoolKeeps(Race(s, turns), FreeNow(s), RaceTakes(s, turns), wanted, turns, o, job);
    }
  }

  lemma SupplyKeeps(s: Fault, job: Job, turns: seq<Turn>, o: Fault)
    requires Sound(s, {}, o, job) && s.log.placed == map[]
    ensures var (t, pool) := Supply(s, job, turns); Stocked(t, pool, o, job) && t.log.placed == map[]
  {
    var (t, n) := Count(s, job.first, job.end, 0, turns);
    CountKeeps(s, job.first, 0, turns, (t, n), o, job);
    CountForward(s, job.first, job.end, 0, turns);
    DrawForKeeps(t, n, turns, o, job);
  }

  /** The part of the pool from idx on is out. */
  ghost predicate Holds(s: Fault, pool: seq<nat>, idx: nat, o: Fault, job: Job) {
    idx <= |pool| && DistinctFrames(pool) && Sound(s, Elems(pool[idx..]), o, job)
  }

  lemma NextFrame(pool: seq<nat>, idx: nat)
    requires DistinctFrames(pool) && idx < |pool|
    ensures pool[idx] !in Elems(pool[idx + 1..]) && Elems(pool[idx..]) == {pool[idx]} + Elems(pool[idx + 1..])
  {
    assert pool[idx..] == [pool[idx]] + pool[idx + 1..];
    ElemsCons(pool[idx], pool[idx + 1..]);
  }

  lemma ReturnCounts(log: Log, f: nat, out: set<nat>)
    requires f !in out && Accounted(log, out + {f})
    ensures Accounted(log.(returned := log.returned + [f]), out)
  {
    var more := log.(returned := log.returned + [f]);
    forall g: nat
      ensures UsedOnce(more, out, g)
    {
      assert UsedOnce(log, out + {f}, g);
    }
  }

  lemma ReturnKeeps(s: Fault, f: nat, out: set<nat>, o: Fault, job: Job)
    requires f !in out && Sound(s, out + {f}, o, job)
    ensures Sound(Return(s, f), out, o, job)
  {
    PlaceOf(s, out + {f}, o, f);
    ReleaseUnshared(s.books, f);
    Moves(s, out + {f}, Return(s, f), out, o);
    SpaceKeeps(s, Return(s, f), o, job);
    ReturnCounts(s.log, f, out);
  }

  /** A frame that is out shows no page of the fault. */
  lemma OutIsUnplaced(s: Fault, f: nat, out: set<nat>, o: Fault)
    requires Partition(s, out, o) && f in out
    ensures f !in FramesOf(s.log.placed) && forall va :: va in s.log.placed ==> s.log.placed[va] != f
  {
    assert PlacedOnce(s, out, o, f);
    forall va | va in s.log.placed
      ensures s.log.placed[va] != f
    {
      assert s.log.placed[va] in FramesOf(s.log.placed);
    }
  }

  /** The frame is out, and holds what the page at `cur` shows. */
  ghost predicate Ready(s: Fault, cur: int, f: nat, job: Job) {
    f in s.contents && s.contents[f] == FillPage(job.file, job.seg, cur)
  }

  lemma FillKeeps(s: Fault, cur: int, f: nat, out: set<nat>, o: Fault, job: Job)
    requires f in out && Sound(s, out, o, job)
    ensures Sound(Fill(s, cur, f, job), out, o, job) && Ready(Fill(s, cur, f, job), cur, f, job)
  {
    var t := Fill(s, cur, f, job);
    OutIsUnplaced(s, f, out, o);
    Moves(s, out, t, out, o);
    SpaceKeeps(s, t.(contents := s.contents), o, job);
    forall g: nat
      ensures Listed(t, o, g)
    {
      assert Listed(s, o, g);
    }
    forall va | va in t.table
      ensures Explained(t, o, va)
    {
      assert Explained(s, o, va);
    }
  }

  lemma PlaceMoves(s: Fault, cur: int, f: nat, out: set<nat>, o: Fault)
    requires f !in out && Partition(s, out + {f}, o) && cur !in s.log.placed
    ensures Partition(Place(s, cur, f), out, o)
  {
    OutIsUnplaced(s, f, out + {f}, o);
    FramesGrow(s.log.placed, cur, f);
    Moves(s, out + {f}, Place(s, cur, f), out, o);
  }

  lemma PlaceImages(s: Fault, cur: int, f: nat, out: set<nat>, o: Fault, job: Job)
    requires f in out && Partition(s, out, o) && Images(s, o, job) && Ready(s, cur, f, job)
    requires cur !in s.log.placed && (cur !in o.table || cur in s.log.gone) && IsPageOf(job, cur)
    ensures Images(Place(s, cur, f), o, job)
  {
    OutIsUnplaced(s, f, out, o);
    FramesGrow(s.log.placed, cur, f);
  }

  lemma PlaceCounts(log: Log, cur: int, f: nat, out: set<nat>)
    requires f !in out && Accounted(log, out + {f}) && cur !in log.placed && f !in FramesOf(log.placed)
    ensures Accounted(log.(placed := log.placed[cur := f]), out)
  {
    FramesGrow(log.placed, cur, f);
    var more := log.(placed := log.placed[cur := f]);
    forall g: nat
      ensures UsedOnce(more, out, g)
    {
      assert UsedOnce(log, out + {f}, g);
    }
  }

  lemma PlaceComposed(s: Fault, cur: int, f: nat, o: Fault)
    requires Composed(s, o) && cur !in s.table
    ensures Composed(Place(s, cur, f), o) && cur !in s.log.placed && (cur !in o.table || cur in s.log.gone)
  {
    var t := Place(s, cur, f);
    forall va | va in t.table
      ensures Explained(t, o, va)
    {
      assert va != cur ==> Explained(s, o, va);
    }
  }

  lemma PlaceListed(s: Fault, cur: int, f: nat, out: set<nat>, o: Fault)
    requires Steady(s, o) && Partition(s, out, o) && Composed(s, o) && AllListed(s, o)
    requires f in out && cur !in s.table && cur !in s.log.placed
    ensures AllListed(Place(s, cur, f), o)
  {
    var t := Place(s, cur, f);
    PlaceOf(s, out, o, f);
    Unmapped(s, o, f);
    FramesGrow(s.log.placed, cur, f);
    forall g: nat
      ensures Listed(t, o, g)
    {
      ListedNew(s, t, o, cur, f, g);
    }
  }

  lemma PlaceKeeps(s: Fault, cur: int, f: nat, out: set<nat>, o: Fault, job: Job)
    requires f !in out && Sound(s, out + {f}, o, job) && Ready(s, cur, f, job)
    requires cur !in s.table && IsPageOf(job, cur)
    ensures Sound(Place(s, cur, f), out, o, job)
  {
    PlaceComposed(s, cur, f, o);
    PlaceMoves(s, cur, f, out, o);
    PlaceImages(s, cur, f, out + {f}, o, job);
    PlaceListed(s, cur, f, out + {f}, o);
    OutIsUnplaced(s, f, out + {f}, o);
    PlaceCounts(s.log, cur, f, out);
  }

  lemma InstallKeeps(s: Fault, cur: int, f: nat, out: set<nat>, o: Fault, job: Job)
    requires f !in out && Sound(s, out + {f}, o, job) && IsPageOf(job, cur)
    ensures Sound(Install(s, cur, f, job), out, o, job)
  {
    FillKeeps(s, cur, f, out + {f}, o, job);
    if cur in s.table {
      ReturnKeeps(Fill(s, cur, f, job), f, out, o, job);
    } else {
      PlaceKeeps(Fill(s, cur, f, job), cur, f, out, o, job);
    }
  }

  lemma InstallMaps(s: Fault, cur: int, f: nat, job: Job)
    ensures cur in Install(s, cur, f, job).table && StaysMapped(Install(s, cur, f, job).table, s.table)
  {
  }

  // ---------------------------------------------------------------- the window

  /** The faulting page is mapped once the loop is past it, and whenever it reports success. */
  ghost predicate Reached(l: Loop, cur: int, job: Job) {
    (job.first < cur || l.anyMapped) ==> job.first in l.s.table
  }

  lemma HandOut(u: Fault, pool: seq<nat>, idx: nat, cur: int, o: Fault, job: Job)
    requires idx < |pool| && Holds(u, pool, idx, o, job) && IsPageOf(job, cur)
    ensures Holds(Install(u, cur, pool[idx], job), pool, idx + 1, o, job)
  {
    var out := Elems(pool[idx + 1..]);
    NextFrame(pool, idx);
    assert Elems(pool[idx..]) == out + {pool[idx]};
    InstallKeeps(u, cur, pool[idx], out, o, job);
  }

  lemma RaceHolds(s: Fault, pool: seq<nat>, idx: nat, turns: seq<Turn>, o: Fault, job: Job)
    requires Holds(s, pool, idx, o, job)
    ensures Holds(Race(s, turns), pool, idx, o, job)
  {
    RaceKeeps(s, turns, Elems(pool[idx..]), o, job);
  }

  lemma VisitInstalls(l: Loop, pool: seq<nat>, cur: int, job: Job, turns: seq<Turn>)
    requires cur !in Race(l.s, turns).table && l.idx < |pool|
    ensures var t := Visit(l, pool, cur, job, turns).0;
            t.idx == l.idx + 1 && t.s == Install(Race(Race(l.s, turns), turns), cur, pool[l.idx], job)
  {
  }

  lemma VisitPasses(l: Loop, pool: seq<nat>, cur: int, job: Job, turns: seq<Turn>)
    requires cur in Race(l.s, turns).table || l.idx >= |pool|
    ensures Visit(l, pool, cur, job, turns).0 == l.(s := Race(l.s, turns))
  {
  }

  lemma VisitKeeps(l: Loop, pool: seq<nat>, cur: int, job: Job, turns: seq<Turn>, o: Fault)
    requires Holds(l.s, pool, l.idx, o, job) && IsPageOf(job, cur)
    ensures var t := Visit(l, pool, cur, job, turns).0; Holds(t.s, pool, t.idx, o, job)
  {
    var t := Race(l.s, turns);
    RaceHolds(l.s, pool, l.idx, turns, o, job);
    if cur in t.table || l.idx >= |pool| {
      VisitPasses(l, pool, cur, job, turns);
    } else {
      VisitHandsOut(l, t, pool, cur, job, turns, o);
    }
  }

  lemma VisitHandsOut(l: Loop, t: Fault, pool: seq<nat>, cur: int, job: Job, turns: seq<Turn>, o: Fault)
    requires t == Race(l.s, turns) && Holds(t, pool, l.idx, o, job) && IsPageOf(job, cur)
    requires cur !in t.table && l.idx < |pool|
    ensures var r := Visit(l, pool, cur, job, turns).0; Holds(r.s, pool, r.idx, o, job)
  {
    RaceHolds(t, pool, l.idx, turns, o, job);
    HandOut(Race(t, turns), pool, l.idx, cur, o, job);
    VisitInstalls(l, pool, cur, job, turns);
  }

  lemma VisitReaches(l: Loop, pool: seq<nat>, cur: int, job: Job, turns: seq<Turn>)
    requires Reached(l, cur, job) && job.first <= cur
    ensures var (t, stop) := Visit(l, pool, cur, job, turns); Reached(t, if stop then cur else cur + PAGE_SIZE, job)
  {
    var t := Race(l.s, turns);
    RaceOnwards(l.s, turns);
    if cur !in t.table && l.idx < |pool| {
      RaceOnwards(t, turns);
      InstallMaps(Race(t, turns), cur, pool[l.idx], job);
    }
  }

  lemma WalkOn(l: Loop, pool: seq<nat>, cur: int, job: Job, turns: seq<Turn>, r: Loop, o: Fault)
    returns (t: Loop, stop: bool)
    requires Holds(l.s, pool, l.idx, o, job) && IsPageOf(job, cur) && WalkLeads(l, pool, cur, job, turns, r)
    ensures Holds(t.s, pool, t.idx, o, job) && (stop ==> t == r)
    ensures !stop ==> WalkLeads(t, pool, cur + PAGE_SIZE, job, turns, r)
  {
    VisitKeeps(l, pool, cur, job, turns, o);
    var v := Visit(l, pool, cur, job, turns);
    t, stop := v.0, v.1;
    WalkStep(l, pool, cur, job, turns, r, t, stop);
  }

  lemma {:induction false} WalkKeeps(l: Loop, pool: seq<nat>, cur: int, job: Job, turns: seq<Turn>, r: Loop, o: Fault)
    requires Holds(l.s, pool, l.idx, o, job) && WalkLeads(l, pool, cur, job, turns, r)
    requires job.first <= cur && (cur - job.first) % PAGE_SIZE == 0
    ensures Holds(r.s, pool, r.idx, o, job)
    decreases job.end - cur
  {
    if cur < job.end {
      var t, stop := WalkOn(l, pool, cur, job, turns, r, o);
      if !stop {
        WalkKeeps(t, pool, cur + PAGE_SIZE, job, turns, r, o);
      }
    }
  }

  /** A window that reports success has mapped the faulting page, or found it mapped. */
  lemma {:induction false} WalkReaches(l: Loop, pool: seq<nat>, cur: int, job: Job, turns: seq<Turn>)
    requires Reached(l, cur, job) && job.first <= cur
    ensures Reached(Walk(l, pool, cur, job, turns), job.first, job)
    decreases job.end - cur
  {
    if cur < job.end {
      VisitReaches(l, pool, cur, job, turns);
      var (t, stop) := Visit(l, pool, cur, job, turns);
      if !stop {
        WalkReaches(t, pool, cur + PAGE_SIZE, job, turns);
      }
    }
  }

  /** A window that reports nothing has mapped nothing. */
  lemma {:induction false} WalkPlaces(l: Loop, pool: seq<nat>, cur: int, job: Job, turns: seq<Turn>)
    requires l.anyMapped || l.s.log.placed == map[]
    ensures var r := Walk(l, pool, cur, job, turns); r.anyMapped || r.s.log.placed == map[]
    decreases job.end - cur
  {
    if cur < job.end {
      RaceOnwards(l.s, turns);
      RaceOnwards(Race(l.s, turns), turns);
      var (t, stop) := Visit(l, pool, cur, job, turns);
      if !stop {
        WalkPlaces(t, pool, cur + PAGE_SIZE, job, turns);
      }
    }
  }

  lemma PutBackOne(s: Fault, pool: seq<nat>, i: nat, turns: seq<Turn>, o: Fault, job: Job)
    requires i < |pool| && Holds(s, pool, i, o, job)
    ensures Holds(Race(Return(s, pool[i]), turns), pool, i + 1, o, job)
  {
    var out := Elems(pool[i + 1..]);
    NextFrame(pool, i);
    assert Elems(pool[i..]) == out + {pool[i]};
    ReturnKeeps(s, pool[i], out, o, job);
    RaceHolds(Return(s, pool[i]), pool, i + 1, turns, o, job);
  }

  lemma {:induction false} PutBackKeeps(s: Fault, pool: seq<nat>, i: nat, turns: seq<Turn>, o: Fault, job: Job)
    requires Holds(s, pool, i, o, job)
    ensures Sound(PutBack(s, pool, i, turns), {}, o, job)
    decreases |pool| - i
  {
    if i < |pool| {
      PutBackOne(s, pool, i, turns, o, job);
      PutBackKeeps(Race(Return(s, pool[i]), turns), pool, i + 1, turns, o, job);
    } else {
      assert pool[i..] == [] && Elems(pool[i..]) == {};
    }
  }

  lemma {:induction false} PutBackExtends(s: Fault, pool: seq<nat>, i: nat, turns: seq<Turn>)
    ensures Onwards(PutBack(s, pool, i, turns), s)
    decreases |pool| - i
  {
    if i < |pool| {
      RaceOnwards(Return(s, pool[i]), turns);
      PutBackExtends(Race(Return(s, pool[i]), turns), pool, i + 1, turns);
    }
  }

  /** The walk through the window and the return of what is left of the pool. */
  lemma WindowKeeps(t: Fault, pool: seq<nat>, job: Job, turns: seq<Turn>, o: Fault) returns (w: Loop)
    requires Stocked(t, pool, o, job) && t.log.placed == map[]
    ensures w == Walk(Loop(t, 0, false), pool, job.first, job, turns)
    ensures var r := PutBack(w.s, pool, w.idx, turns);
            && Sound(r, {}, o, job) && (w.anyMapped ==> job.first in r.table)
            && (!w.anyMapped ==> r.log.placed == map[])
  {
    assert pool[0..] == pool;
    var l := Loop(t, 0, false);
    w := Walk(l, pool, job.first, job, turns);
    WalkKeeps(l, pool, job.first, job, turns, w, o);
    WalkReaches(l, pool, job.first, job, turns);
    WalkPlaces(l, pool, job.first, job, turns);
    RestKeeps(w, pool, job, turns, o);
  }

  lemma RestKeeps(w: Loop, pool: seq<nat>, job: Job, turns: seq<Turn>, o: Fault)
    requires Holds(w.s, pool, w.idx, o, job) && (w.anyMapped ==> job.first in w.s.table)
    requires w.anyMapped || w.s.log.placed == map[]
    ensures var r := PutBack(w.s, pool, w.idx, turns);
            && Sound(r, {}, o, job) && (w.anyMapped ==> job.first in r.table)
            && (!w.anyMapped ==> r.log.placed == map[])
  {
    PutBackKeeps(w.s, pool, w.idx, turns, o, job);
    PutBackExtends(w.s, pool, w.idx, turns);
  }

  /** Whatever the others do, a window leaves every frame in one place and uses none twice. */
  lemma PrefetchKeeps(s: Fault, job: Job, turns: seq<Turn>, o: Fault)
    requires Sound(s, {}, o, job) && s.log.placed == map[]
    ensures var (r, anyMapped) := Prefetch(s, job, turns);
            && Sound(r, {}, o, job) && (anyMapped ==> job.first in r.table)
            && (!anyMapped ==> r.log.placed == map[])
  {
    SupplyKeeps(s, job, turns, o);
    var v := Supply(s, job, turns);
    var w := WindowKeeps(v.0, v.1, job, turns, o);
    assert Prefetch(s, job, turns) == (PutBack(w.s, v.1, w.idx, turns), w.anyMapped);
  }

  /** The frame for the faulting page alone is placed, or goes back. */
  lemma SingleInstalls(t: Fault, f: nat, job: Job, turns: seq<Turn>, o: Fault)
    requires Sound(t, {} + {f}, o, job) && job.first < job.end
    ensures var r := Install(Race(t, turns), job.first, f, job); Sound(r, {}, o, job) && job.first in r.table
  {
    RaceKeeps(t, turns, {} + {f}, o, job);
    InstallKeeps(Race(t, turns), job.first, f, {}, o, job);
    InstallMaps(Race(t, turns), job.first, f, job);
  }

  lemma SingleKeeps(s: Fault, job: Job, turns: seq<Turn>, o: Fault)
    requires Sound(s, {}, o, job) && s.log.placed == map[] && job.first < job.end
    ensures var (r, ok) := Single(s, job, turns);
            && Sound(r, {}, o, job) && (ok ==> job.first in r.table)
            && (!ok ==> r.log.refusedAt.Some? && r.log.refusedAt.value <= USER_PAGE_RESERVE && Forward(r, s))
  {
    var (t, got) := AllocUser(s, turns);
    AllocUserKeeps(s, turns, {}, o, job);
    if got.Some? {
      SingleInstalls(t, got.value, job, turns, o);
    }
  }
}
