/**
 Every step of copy-on-write sharing keeps the books: a counter is the number of holders and what
 forks counted too often, and every frame of RAM has exactly one role. The lemmas go frame by frame
 and step by step and come together in `StepKeepsInv`; `GuardKeptExactly` says which steps keep
 shared frames read-only as well.
 */
module CowSharing {
  import opened Prelude
  import opened PagePool
  import opened RefCounts
  import opened CowModel

  // ---------------------------------------------------------------- how tables and users change

  lemma FramesOfFresh(t: Table, va: int, p: Pte)
    requires Injective(t) && va !in t && p.frame !in Frames(t)
    ensures Frames(t[va := p]) == Frames(t) + {p.frame} && Injective(t[va := p])
  {
    var u := t[va := p];
    assert u[va] == p;
    forall v | v in t
      ensures u[v] == t[v]
    {
    }
  }

  lemma FramesOfMoved(t: Table, va: int, p: Pte)
    requires Injective(t) && va in t && (p.frame == t[va].frame || p.frame !in Frames(t))
    ensures Frames(t[va := p]) == Frames(t) - {t[va].frame} + {p.frame} && Injective(t[va := p])
  {
    var u := t[va := p];
    assert u[va] == p;
    forall v | v in t && v != va
      ensures u[v] == t[v] && t[v].frame != t[va].frame
    {
    }
  }

  lemma FramesOfRemoved(t: Table, va: int)
    requires Injective(t) && va in t
    ensures Frames(t - {va}) == Frames(t) - {t[va].frame} && Injective(t - {va})
  {
    var u := t - {va};
    forall v | v in t && v != va
      ensures v in u && u[v] == t[v] && t[v].frame != t[va].frame
    {
    }
  }

  lemma FramesOfWithout(t: Table, f: nat)
    requires Injective(t)
    ensures Frames(Without(t, f)) == Frames(t) - {f} && Injective(Without(t, f))
  {
    var u := Without(t, f);
    forall g | g in Frames(t) && g != f
      ensures g in Frames(u)
    {
      var va := AddressOf(t, g);
      assert u[va].frame == g;
    }
  }

  lemma FramesOfDemoted(t: Table, vas: set<int>)
    requires Injective(t)
    ensures Frames(Demote(t, vas)) == Frames(t) && Injective(Demote(t, vas))
    ensures Injective(Restrict(t, vas)) && Frames(Restrict(t, vas)) <= Frames(t)
    ensures forall va :: va in t ==> (t[va].frame in Frames(Restrict(t, vas)) <==> va in vas)
  {
    var u := Demote(t, vas);
    forall va | va in t
      ensures t[va].frame in Frames(u)
    {
      assert u[va].frame == t[va].frame;
    }
  }

  function With(s: set<int>, x: int, present: bool): set<int> {
    if present then s + {x} else s - {x}
  }

  /** The users of a frame once space s maps it or not and knows of `count` uses. */
  ghost function Staked(u: Users, s: int, maps: bool, count: nat): Users {
    Users(With(u.sharers, s, maps), With(u.holders, s, count > 0), With(u.twice, s, maps && count >= 2))
  }

  ghost predicate StakeIs(st: State, s: int, f: nat, maps: bool, count: nat) {
    && (maps <==> s in st.spaces && f in Frames(st.spaces[s]))
    && CountOf(st, s, f) == count && (count > 0 <==> s in st.tracked && f in st.tracked[s])
  }

  /** Only space s has changed. */
  ghost predicate SameElsewhere(st': State, st: State, s: int) {
    forall w :: w != s ==>
      && (w in st'.spaces <==> w in st.spaces) && (w in st.spaces ==> st'.spaces[w] == st.spaces[w])
      && (w in st'.tracked <==> w in st.tracked) && (w in st.tracked ==> st'.tracked[w] == st.tracked[w])
  }

  lemma UsersAfter(st: State, st': State, s: int, f: nat, maps: bool, count: nat)
    requires SameElsewhere(st', st, s) && StakeIs(st', s, f, maps, count)
    ensures UsersOf(st', f) == Staked(UsersOf(st, f), s, maps, count)
  {
    var u, u' := UsersOf(st, f), UsersOf(st', f);
    forall w | w != s
      ensures w in u'.sharers <==> w in u.sharers
      ensures w in u'.holders <==> w in u.holders
      ensures w in u'.twice <==> w in u.twice
    {
    }
  }

  /** The stake of s in this frame is what it was. */
  ghost predicate SameStake(st': State, st: State, s: int, f: nat) {
    && (s in st'.spaces && f in Frames(st'.spaces[s]) <==> s in st.spaces && f in Frames(st.spaces[s]))
    && (s in st'.tracked && f in st'.tracked[s] <==> s in st.tracked && f in st.tracked[s])
    && CountOf(st', s, f) == CountOf(st, s, f)
  }

  lemma UsersSame(st: State, st': State, s: int, f: nat)
    requires SameElsewhere(st', st, s) && SameStake(st', st, s, f)
    ensures UsersOf(st', f) == UsersOf(st, f)
  {
    var u, u' := UsersOf(st, f), UsersOf(st', f);
    forall w
      ensures w in u'.sharers <==> w in u.sharers
      ensures w in u'.holders <==> w in u.holders
      ensures w in u'.twice <==> w in u.twice
    {
    }
  }

  lemma TablesStayOk(refs: map<nat, nat>, refs': map<nat, nat>, spaces: map<int, Table>, s: int, t: Table,
                     guarded: bool)
    requires TablesOk(refs, spaces, guarded) && refs'.Keys <= refs.Keys && TableOk(refs', t, guarded)
    ensures TablesOk(refs', spaces[s := t], guarded)
  {
    var after := spaces[s := t];
    forall u | u in after
      ensures TableOk(refs', after[u], guarded)
    {
      if u != s {
        assert TableOk(refs, spaces[u], guarded);
      }
    }
  }

  lemma ListsStayOk(tracked: map<int, map<nat, nat>>, s: int, list: map<nat, nat>)
    requires ListsOk(tracked) && ListOk(list)
    ensures ListsOk(tracked[s := list])
  {
  }

  ghost function Nobody(): Users {
    Users({}, {}, {})
  }

  /** A free frame has no user and no counter. */
  lemma FreeIsUnshared(st: State, f: nat)
    requires Fits(st, f) && f in st.pool.free
    ensures UsersOf(st, f) == Nobody() && f !in st.refs && Surplus(st, f) == 0
    ensures forall s :: s in st.spaces ==> f !in Frames(st.spaces[s])
    ensures forall s :: s in st.tracked ==> f !in st.tracked[s]
  {
    forall s | s in st.spaces
      ensures f !in Frames(st.spaces[s])
    {
      assert s !in Sharers(st.spaces, f);
    }
    forall s | s in st.tracked
      ensures f !in st.tracked[s]
    {
      assert s !in Holders(st.tracked, f);
    }
  }

  lemma Singleton<T>(s: set<T>, x: T)
    requires x in s && |s| <= 1
    ensures s == {x}
  {
    SubsetSize({x}, s);
  }

  /** A space that maps a frame has it on its list. */
  lemma MappedIsTracked(st: State, s: int, va: int)
    requires Mapped(st, s, va) && Fits(st, st.spaces[s][va].frame) && ListOk(st.tracked[s])
    ensures var f := st.spaces[s][va].frame;
            && s in UsersOf(st, f).sharers && s in UsersOf(st, f).holders
            && f in st.tracked[s] && CountOf(st, s, f) >= 1
            && (CountOf(st, s, f) >= 2 <==> s in UsersOf(st, f).twice)
  {
    var f := st.spaces[s][va].frame;
    assert s in Sharers(st.spaces, f);
    assert s in Holders(st.tracked, f);
  }

  // ---------------------------------------------------------------- what a step means for one frame

  /** The frame keeps its role and its counter. */
  ghost predicate SameRole(st': State, st: State, f: nat) {
    && st'.root == st.root && st'.pool.total == st.pool.total && Surplus(st', f) == Surplus(st, f)
    && (f in st'.pool.free <==> f in st.pool.free) && (f in st'.kernel <==> f in st.kernel)
    && (f in st'.retired <==> f in st.retired) && (f in st'.refs <==> f in st.refs)
    && (f in st.refs ==> st'.refs[f] == st.refs[f])
  }

  lemma SameFrame(st: State, st': State, f: nat, u: Users)
    requires FrameOk(st, f, u) && SameRole(st', st, f)
    ensures FrameOk(st', f, u)
  {
  }

  /** Neither users nor books of this frame have changed. */
  lemma Untouched(st: State, st': State, s: int, f: nat)
    requires Fits(st, f) && SameElsewhere(st', st, s) && SameStake(st', st, s, f) && SameRole(st', st, f)
    ensures Fits(st', f)
  {
    UsersSame(st, st', s, f);
    SameFrame(st, st', f, UsersOf(st, f));
  }

  /** Space s has a new stake in this frame, and the books say so. */
  lemma Touched(st: State, st': State, s: int, f: nat, maps: bool, count: nat)
    requires SameElsewhere(st', st, s) && StakeIs(st', s, f, maps, count)
    requires FrameOk(st', f, Staked(UsersOf(st, f), s, maps, count))
    ensures Fits(st', f)
  {
    UsersAfter(st, st', s, f, maps, count);
  }

  /** Space s has table t and list l now, and nothing else has changed about tables and lists. */
  ghost predicate Replaces(st': State, st: State, s: int, t: Table, l: map<nat, nat>) {
    st'.spaces == st.spaces[s := t] && st'.tracked == st.tracked[s := l]
  }

  lemma ReplacedStake(st: State, st': State, s: int, t: Table, l: map<nat, nat>, f: nat)
    requires Replaces(st', st, s, t, l) && ListOk(l)
    ensures SameElsewhere(st', st, s) && StakeIs(st', s, f, f in Frames(t), CountIn(l, f))
  {
  }

  lemma FrameMoves(st: State, st': State, s: int, t: Table, l: map<nat, nat>, f: nat)
    requires Replaces(st', st, s, t, l) && ListOk(l)
    requires FrameOk(st', f, Staked(UsersOf(st, f), s, f in Frames(t), CountIn(l, f)))
    ensures Fits(st', f)
  {
    ReplacedStake(st, st', s, t, l, f);
    Touched(st, st', s, f, f in Frames(t), CountIn(l, f));
  }

  lemma FrameStays(st: State, st': State, s: int, t: Table, l: map<nat, nat>, f: nat)
    requires Replaces(st', st, s, t, l) && s in st.spaces && s in st.tracked
    requires (f in Frames(t) <==> f in Frames(st.spaces[s])) && (f in l <==> f in st.tracked[s])
    requires CountIn(l, f) == CountIn(st.tracked[s], f) && SameRole(st', st, f) && Fits(st, f)
    ensures Fits(st', f)
  {
    Untouched(st, st', s, f);
  }

  lemma ForgetKeepsList(l: map<nat, nat>, f: nat)
    requires ListOk(l)
    ensures ListOk(Forget(l, f)) && ListOk(Track(l, f))
    ensures f in Forget(l, f) <==> CountIn(l, f) >= 2
  {
  }

  /** Space s has a new table and a new list, and the books fit. */
  lemma ReplacedInv(st: State, st': State, s: int, t: Table, l: map<nat, nat>, guarded: bool)
    requires Inv(st, guarded) && Replaces(st', st, s, t, l) && s in st.spaces && Wf(st'.pool) && st'.root == st.root
    requires TableOk(st'.refs, t, guarded) && st'.refs.Keys <= st.refs.Keys && ListOk(l) && AllFit(st')
    ensures Inv(st', guarded)
  {
    TablesStayOk(st.refs, st'.refs, st.spaces, s, t, guarded);
    ListsStayOk(st.tracked, s, l);
  }

  lemma ReleaseRole(st: State, g: nat, f: nat)
    requires f != g
    ensures SameRole(Release(st, g), st, f) && SameRole(Abandon(st, g), st, f)
  {
  }

  lemma LastHolder(st: State, s: int, f: nat, u: Users)
    requires FrameOk(st, f, u) && s in u.holders
    ensures RefDec(st.refs, f).1 <==> u.holders == {s} && Surplus(st, f) == 0
    ensures |u.holders - {s}| == |u.holders| - 1
  {
    if |u.holders| <= 1 {
      Singleton(u.holders, s);
    }
  }

  lemma FewerTwice(u: Users, s: int)
    ensures |u.twice - {s}| <= |u.twice| && (s in u.twice ==> |u.twice - {s}| == |u.twice| - 1)
  {
    SubsetSize(u.twice - {s}, u.twice);
  }

  /** A released frame loses holder s; with the last one, and no surplus, it goes back to the pool. */
  lemma ReleasedFrame(st: State, s: int, f: nat, u: Users)
    requires FrameOk(st, f, u) && s in u.holders
    ensures FrameOk(Release(st, f), f, Staked(u, s, false, 0))
  {
    LastHolder(st, s, f, u);
    FewerTwice(u, s);
  }

  /** An abandoned frame loses holder s and is retired with its last reference. */
  lemma AbandonedFrame(st: State, s: int, f: nat, u: Users)
    requires FrameOk(st, f, u) && s in u.holders && f in st.refs
    ensures FrameOk(Abandon(st, f), f, Staked(u, s, false, 0))
  {
    LastHolder(st, s, f, u);
    FewerTwice(u, s);
  }

  /** A space that counts the frame twice unmaps it and stays a holder. */
  lemma ForgottenFrame(st: State, s: int, f: nat, u: Users, count: nat)
    requires FrameOk(st, f, u) && s in u.twice && count >= 1
    ensures FrameOk(st, f, Staked(u, s, false, count))
  {
    FewerTwice(u, s);
    assert u.holders + {s} == u.holders;
  }

  /** It may drop a reference as well: that is one of the surplus. */
  lemma OvercountedFrame(st: State, st': State, s: int, f: nat, u: Users, count: nat)
    requires FrameOk(st, f, u) && s in u.twice && count >= 1
    requires st'.refs == RefDec(st.refs, f).0 && Surplus(st', f) == Surplus(st, f) - 1
    requires st'.root == st.root && st'.pool.total == st.pool.total
    requires (f in st'.pool.free <==> f in st.pool.free) && (f in st'.kernel <==> f in st.kernel)
    requires f in st'.retired <==> f in st.retired
    ensures FrameOk(st', f, Staked(u, s, false, count))
  {
    FewerTwice(u, s);
    assert u.holders + {s} == u.holders;
    SubsetSize({s}, u.holders);
  }

  /** The frame leaves the pool for its first holder s. */
  lemma FreshFrame(st: State, st': State, s: int, f: nat)
    requires FrameOk(st, f, Nobody()) && f in st.pool.free && s in st.root
    requires st'.root == st.root && st'.pool.total == st.pool.total && st'.kernel == st.kernel
    requires f !in st'.pool.free && f !in st'.refs && (f in st'.retired ==> f in st.retired)
    requires Surplus(st', f) == 0
    ensures FrameOk(st', f, Staked(Nobody(), s, true, 1))
  {
  }

  // ---------------------------------------------------------------- mapping and unmapping

  lemma MapFreshRole(st: State, step: Step, f: nat)
    requires step.MapFresh? && Enabled(st, step) && AllocOne(st.pool).1.Some? && f != AllocOne(st.pool).1.value
    ensures SameRole(Next(st, step), st, f)
  {
  }

  lemma MapFreshFits(st: State, st': State, step: Step, n: nat, f: nat)
    requires step.MapFresh? && Enabled(st, step) && AllocOne(st.pool).1 == Some(n) && st' == Next(st, step)
    requires step.space in st.root && Fits(st, n) && Fits(st, f) && ListOk(st.tracked[step.space])
    requires Frames(st.spaces[step.space][step.va := Pte(n, step.writable)]) == Frames(st.spaces[step.space]) + {n}
    ensures Fits(st', f)
  {
    var s := step.space;
    var t, l := st.spaces[s][step.va := Pte(n, step.writable)], Track(st.tracked[s], n);
    FreeIsUnshared(st, n);
    ForgetKeepsList(st.tracked[s], n);
    if f == n {
      FreshFrame(st, st', s, n);
      FrameMoves(st, st', s, t, l, n);
    } else {
      MapFreshRole(st, step, f);
      FrameStays(st, st', s, t, l, f);
    }
  }

  lemma MapFreshAllFit(st: State, step: Step, n: nat, guarded: bool)
    requires Inv(st, guarded) && step.MapFresh? && Enabled(st, step) && AllocOne(st.pool).1 == Some(n)
    requires Frames(st.spaces[step.space][step.va := Pte(n, step.writable)]) == Frames(st.spaces[step.space]) + {n}
    ensures AllFit(Next(st, step))
  {
    assert Fits(st, n) && ListOk(st.tracked[step.space]);
    forall f: nat
      ensures Fits(Next(st, step), f)
    {
      assert Fits(st, f);
      MapFreshFits(st, Next(st, step), step, n, f);
    }
  }

  lemma MapFreshKeeps(st: State, step: Step, guarded: bool)
    requires Inv(st, guarded) && step.MapFresh? && Enabled(st, step)
    ensures Inv(Next(st, step), guarded)
  {
    var page := AllocOne(st.pool).1;
    if page.Some? {
      var s, n, t := step.space, page.value, st.spaces[step.space];
      assert Fits(st, n) && ListOk(st.tracked[s]) && TableOk(st.refs, t, guarded);
      FreeIsUnshared(st, n);
      FramesOfFresh(t, step.va, Pte(n, step.writable));
      ForgetKeepsList(st.tracked[s], n);
      MapFreshAllFit(st, step, n, guarded);
      ReplacedInv(st, Next(st, step), s, t[step.va := Pte(n, step.writable)], Track(st.tracked[s], n), guarded);
    }
  }

  lemma RemoveRole(st: State, s: int, va: int, f: nat)
    requires Mapped(st, s, va) && f != st.spaces[s][va].frame
    ensures SameRole(Remove(st, s, va), st, f)
  {
  }

  /** What becomes of the frame itself. */
  lemma RemoveThis(st: State, s: int, va: int, u: Users)
    requires Mapped(st, s, va) && FrameOk(st, st.spaces[s][va].frame, u) && s in u.holders
    requires CountOf(st, s, st.spaces[s][va].frame) >= 1
    requires CountOf(st, s, st.spaces[s][va].frame) >= 2 <==> s in u.twice
    ensures var f := st.spaces[s][va].frame;
            FrameOk(Remove(st, s, va), f, Staked(u, s, false, CountOf(st, s, f) - 1))
  {
    var f, st' := st.spaces[s][va].frame, Remove(st, s, va);
    var count := CountOf(st, s, f);
    if count == 1 {
      ReleasedFrame(st, s, f, u);
      SameFrame(Release(st, f), st', f, Staked(u, s, false, 0));
    } else {
      ForgottenFrame(st, s, f, u, count - 1);
      SameFrame(st, st', f, Staked(u, s, false, count - 1));
    }
  }

  lemma RemoveReplaces(st: State, s: int, va: int)
    requires Mapped(st, s, va)
    ensures Replaces(Remove(st, s, va), st, s, st.spaces[s] - {va}, Forget(st.tracked[s], st.spaces[s][va].frame))
  {
  }

  lemma RemoveFits(st: State, s: int, va: int, f: nat)
    requires Mapped(st, s, va) && ListOk(st.tracked[s]) && Fits(st, f) && Fits(st, st.spaces[s][va].frame)
    requires Frames(st.spaces[s] - {va}) == Frames(st.spaces[s]) - {st.spaces[s][va].frame}
    ensures Fits(Remove(st, s, va), f)
  {
    var g, t := st.spaces[s][va].frame, st.spaces[s] - {va};
    var l := Forget(st.tracked[s], g);
    MappedIsTracked(st, s, va);
    ForgetKeepsList(st.tracked[s], g);
    RemoveReplaces(st, s, va);
    if f == g {
      RemoveThis(st, s, va, UsersOf(st, g));
      FrameMoves(st, Remove(st, s, va), s, t, l, f);
    } else {
      RemoveRole(st, s, va, f);
      FrameStays(st, Remove(st, s, va), s, t, l, f);
    }
  }

  lemma RemoveAllFit(st: State, s: int, va: int)
    requires AllFit(st) && Mapped(st, s, va) && ListOk(st.tracked[s])
    requires Frames(st.spaces[s] - {va}) == Frames(st.spaces[s]) - {st.spaces[s][va].frame}
    ensures AllFit(Remove(st, s, va))
  {
    assert Fits(st, st.spaces[s][va].frame);
    forall f: nat
      ensures Fits(Remove(st, s, va), f)
    {
      assert Fits(st, f);
      RemoveFits(st, s, va, f);
    }
  }

  lemma RemovePool(st: State, s: int, va: int)
    requires Mapped(st, s, va) && Wf(st.pool)
    ensures Wf(Remove(st, s, va).pool) && Remove(st, s, va).root == st.root
    ensures Remove(st, s, va).refs.Keys <= st.refs.Keys
  {
  }

  lemma RemoveKeeps(st: State, s: int, va: int, guarded: bool)
    requires Inv(st, guarded) && Mapped(st, s, va)
    ensures Inv(Remove(st, s, va), guarded)
  {
    var t, g := st.spaces[s], st.spaces[s][va].frame;
    assert TableOk(st.refs, t, guarded) && ListOk(st.tracked[s]);
    FramesOfRemoved(t, va);
    ForgetKeepsList(st.tracked[s], g);
    RemoveAllFit(st, s, va);
    RemovePool(st, s, va);
    RemoveReplaces(st, s, va);
    ReplacedInv(st, Remove(st, s, va), s, t - {va}, Forget(st.tracked[s], g), guarded);
  }

  lemma DropFits(st: State, s: int, g: nat, f: nat)
    requires Enabled(st, Drop(s, g)) && Fits(st, f) && Fits(st, g) && ListOk(st.tracked[s])
    requires Frames(Without(st.spaces[s], g)) == Frames(st.spaces[s]) - {g}
    ensures Fits(Next(st, Drop(s, g)), f)
  {
    var st' := Next(st, Drop(s, g));
    var t, l := Without(st.spaces[s], g), st.tracked[s] - {g};
    if f == g {
      var u := UsersOf(st, f);
      assert s in u.holders;
      ReleasedFrame(st, s, f, u);
      SameFrame(Release(st, f), st', f, Staked(u, s, false, 0));
      FrameMoves(st, st', s, t, l, f);
    } else {
      ReleaseRole(st, g, f);
      FrameStays(st, st', s, t, l, f);
    }
  }

  lemma DropAllFit(st: State, s: int, g: nat)
    requires AllFit(st) && Enabled(st, Drop(s, g)) && ListOk(st.tracked[s])
    requires Frames(Without(st.spaces[s], g)) == Frames(st.spaces[s]) - {g}
    ensures AllFit(Next(st, Drop(s, g)))
  {
    assert Fits(st, g);
    forall f: nat
      ensures Fits(Next(st, Drop(s, g)), f)
    {
      assert Fits(st, f);
      DropFits(st, s, g, f);
    }
  }

  lemma DropKeeps(st: State, s: int, g: nat, guarded: bool)
    requires Inv(st, guarded) && Enabled(st, Drop(s, g))
    ensures Inv(Next(st, Drop(s, g)), guarded)
  {
    var t := st.spaces[s];
    assert TableOk(st.refs, t, guarded) && ListOk(st.tracked[s]);
    FramesOfWithout(t, g);
    DropAllFit(st, s, g);
    ReplacedInv(st, Next(st, Drop(s, g)), s, Without(t, g), st.tracked[s] - {g}, guarded);
  }

  // ---------------------------------------------------------------- write faults

  /** The books after a copy of frame f to frame n by a space that counted f `count` times. */
  ghost predicate CopyBooks(st: State, st': State, f: nat, n: nat, count: nat) {
    && st'.root == st.root && st'.kernel == st.kernel && st'.pool.total == st.pool.total
    && st'.pool.free == st.pool.free - {n} && st'.refs == RefDec(st.refs, f).0
    && st'.retired == (if RefDec(st.refs, f).1 then st.retired + {f} else st.retired)
    && (forall g :: g != f ==> Surplus(st', g) == Surplus(st, g))
    && Surplus(st', f) == if count >= 2 && Surplus(st, f) > 0 then Surplus(st, f) - 1 else Surplus(st, f)
  }

  lemma CopyIs(st: State, s: int, va: int, n: nat)
    requires Mapped(st, s, va) && AllocOne(st.pool).1 == Some(n)
    ensures var f, st' := st.spaces[s][va].frame, CopyOnFault(st, s, va);
            && CopyBooks(st, st', f, n, CountOf(st, s, f)) && (Wf(st.pool) ==> Wf(st'.pool))
            && Replaces(st', st, s, st.spaces[s][va := Pte(n, true)], Forget(Track(st.tracked[s], n), f))
  {
  }

  lemma CopyRole(st: State, st': State, f: nat, n: nat, count: nat, g: nat)
    requires CopyBooks(st, st', f, n, count) && g != f && g != n
    ensures SameRole(st', st, g)
  {
  }

  lemma CopyNew(st: State, st': State, s: int, f: nat, n: nat, count: nat)
    requires CopyBooks(st, st', f, n, count) && f != n && n in st.pool.free && s in st.root
    requires FrameOk(st, n, Nobody()) && n !in st.refs && Surplus(st, n) == 0
    ensures FrameOk(st', n, Staked(Nobody(), s, true, 1))
  {
    FreshFrame(st, st', s, n);
  }

  lemma CopyOld(st: State, st': State, s: int, f: nat, n: nat, count: nat, u: Users)
    requires CopyBooks(st, st', f, n, count) && f != n && f in st.refs
    requires FrameOk(st, f, u) && s in u.holders && count >= 1 && (count >= 2 <==> s in u.twice)
    ensures FrameOk(st', f, Staked(u, s, false, count - 1))
  {
    if count == 1 {
      AbandonedFrame(st, s, f, u);
      SameFrame(Abandon(st, f), st', f, Staked(u, s, false, 0));
    } else {
      OvercountedOnce(st, s, f, u);
      OvercountedFrame(st, st', s, f, u, count - 1);
    }
  }

  lemma OvercountedOnce(st: State, s: int, f: nat, u: Users)
    requires FrameOk(st, f, u) && s in u.twice
    ensures Surplus(st, f) >= 1 && !RefDec(st.refs, f).1
  {
    SubsetSize({s}, u.twice);
    SubsetSize({s}, u.holders);
  }

  /** What space s maps and remembers after a copy of frame f to frame n. */
  ghost predicate CopyPlaces(st: State, st': State, s: int, t: Table, l: map<nat, nat>, f: nat, n: nat) {
    && s in st.spaces && s in st.tracked && Replaces(st', st, s, t, l) && ListOk(l) && f != n
    && Frames(t) == Frames(st.spaces[s]) - {f} + {n} && f in Frames(st.spaces[s]) && n !in Frames(st.spaces[s])
    && CountIn(l, n) == 1 && CountIn(l, f) == CountOf(st, s, f) - 1
    && forall g :: g != f && g != n ==> (g in l <==> g in st.tracked[s]) && CountIn(l, g) == CountIn(st.tracked[s], g)
  }

  lemma CopyPlaced(st: State, st': State, s: int, va: int, n: nat)
    requires Mapped(st, s, va) && Injective(st.spaces[s]) && ListOk(st.tracked[s])
    requires n !in Frames(st.spaces[s]) && n !in st.tracked[s] && CountOf(st, s, st.spaces[s][va].frame) >= 1
    requires Replaces(st', st, s, st.spaces[s][va := Pte(n, true)],
                      Forget(Track(st.tracked[s], n), st.spaces[s][va].frame))
    ensures CopyPlaces(st, st', s, st.spaces[s][va := Pte(n, true)],
                       Forget(Track(st.tracked[s], n), st.spaces[s][va].frame), st.spaces[s][va].frame, n)
  {
    FramesOfMoved(st.spaces[s], va, Pte(n, true));
    ForgetKeepsList(st.tracked[s], n);
    ForgetKeepsList(Track(st.tracked[s], n), st.spaces[s][va].frame);
  }

  lemma CopyFitsNew(st: State, st': State, s: int, t: Table, l: map<nat, nat>, f: nat, n: nat)
    requires CopyPlaces(st, st', s, t, l, f, n) && CopyBooks(st, st', f, n, CountOf(st, s, f))
    requires n in st.pool.free && s in st.root && Fits(st, n)
    ensures Fits(st', n)
  {
    FreeIsUnshared(st, n);
    CopyNew(st, st', s, f, n, CountOf(st, s, f));
    FrameMoves(st, st', s, t, l, n);
  }

  lemma CopyFitsOld(st: State, st': State, s: int, t: Table, l: map<nat, nat>, f: nat, n: nat)
    requires CopyPlaces(st, st', s, t, l, f, n) && CopyBooks(st, st', f, n, CountOf(st, s, f))
    requires f in st.refs && Fits(st, f) && s in UsersOf(st, f).holders && CountOf(st, s, f) >= 1
    requires CountOf(st, s, f) >= 2 <==> s in UsersOf(st, f).twice
    ensures Fits(st', f)
  {
    CopyOld(st, st', s, f, n, CountOf(st, s, f), UsersOf(st, f));
    FrameMoves(st, st', s, t, l, f);
  }

  lemma CopyFits(st: State, st': State, s: int, t: Table, l: map<nat, nat>, f: nat, n: nat, g: nat)
    requires CopyPlaces(st, st', s, t, l, f, n) && CopyBooks(st, st', f, n, CountOf(st, s, f))
    requires g != n && g != f && Fits(st, g)
    ensures Fits(st', g)
  {
    CopyRole(st, st', f, n, CountOf(st, s, f), g);
    FrameStays(st, st', s, t, l, g);
  }

  lemma CopyKeeps(st: State, s: int, va: int, guarded: bool)
    requires Inv(st, guarded) && Mapped(st, s, va) && st.spaces[s][va].frame in st.refs
    ensures Inv(CopyOnFault(st, s, va), guarded)
  {
    var st' := CopyOnFault(st, s, va);
    var page := AllocOne(st.pool).1;
    if page.Some? {
      CopyIs(st, s, va, page.value);
      CopiedInv(st, st', s, va, page.value, guarded);
    }
  }

  lemma CopyAllFit(st: State, st': State, s: int, t: Table, l: map<nat, nat>, f: nat, n: nat)
    requires AllFit(st) && CopyPlaces(st, st', s, t, l, f, n) && CopyBooks(st, st', f, n, CountOf(st, s, f))
    requires n in st.pool.free && f in st.refs && s in st.root
    requires s in UsersOf(st, f).holders && CountOf(st, s, f) >= 1
    requires CountOf(st, s, f) >= 2 <==> s in UsersOf(st, f).twice
    ensures AllFit(st')
  {
    assert Fits(st, n) && Fits(st, f);
    forall g: nat
      ensures Fits(st', g)
    {
      assert Fits(st, g);
      if g == n {
        CopyFitsNew(st, st', s, t, l, f, n);
      } else if g == f {
        CopyFitsOld(st, st', s, t, l, f, n);
      } else {
        CopyFits(st, st', s, t, l, f, n, g);
      }
    }
  }

  lemma CopiedInv(st: State, st': State, s: int, va: int, n: nat, guarded: bool)
    requires Inv(st, guarded) && Mapped(st, s, va) && n in st.pool.free && st.spaces[s][va].frame in st.refs
    requires CopyBooks(st, st', st.spaces[s][va].frame, n, CountOf(st, s, st.spaces[s][va].frame)) && Wf(st'.pool)
    requires Replaces(st', st, s, st.spaces[s][va := Pte(n, true)],
                      Forget(Track(st.tracked[s], n), st.spaces[s][va].frame))
    ensures Inv(st', guarded)
  {
    var f, t := st.spaces[s][va].frame, st.spaces[s][va := Pte(n, true)];
    var l := Forget(Track(st.tracked[s], n), f);
    assert Fits(st, n) && Fits(st, f) && TableOk(st.refs, st.spaces[s], guarded) && ListOk(st.tracked[s]);
    FreeIsUnshared(st, n);
    FramesOfMoved(st.spaces[s], va, Pte(n, true));
    MappedIsTracked(st, s, va);
    CopyPlaced(st, st', s, va, n);
    CopyAllFit(st, st', s, t, l, f, n);
    ReplacedInv(st, st', s, t, l, guarded);
  }

  lemma UpgradeAllFit(st: State, s: int, va: int)
    requires AllFit(st) && Mapped(st, s, va)
    requires Frames(Upgrade(st, s, va).spaces[s]) == Frames(st.spaces[s])
    ensures AllFit(Upgrade(st, s, va))
  {
    forall f: nat
      ensures Fits(Upgrade(st, s, va), f)
    {
      assert Fits(st, f);
      Untouched(st, Upgrade(st, s, va), s, f);
    }
  }

  lemma UpgradeKeeps(st: State, s: int, va: int, guarded: bool)
    requires Inv(st, guarded) && Mapped(st, s, va)
    requires guarded ==> st.spaces[s][va].frame !in st.refs
    ensures Inv(Upgrade(st, s, va), guarded)
  {
    var t := st.spaces[s];
    var p := t[va].(writable := true);
    assert TableOk(st.refs, t, guarded) && ListOk(st.tracked[s]);
    FramesOfMoved(t, va, p);
    assert Frames(t[va := p]) == Frames(t);
    UpgradeAllFit(st, s, va);
    assert st.tracked[s := st.tracked[s]] == st.tracked;
    ReplacedInv(st, Upgrade(st, s, va), s, t[va := p], st.tracked[s], guarded);
  }

  // ---------------------------------------------------------------- fork

  /** A forked frame gains the child as a holder; its counter follows as often as it was listed. */
  lemma ForkedFrame(st: State, st': State, p: int, c: int, f: nat, u: Users, k: nat)
    requires FrameOk(st, f, u) && p in u.sharers && c !in st.root && k >= 1
    requires st'.pool == st.pool && st'.kernel == st.kernel && st'.retired == st.retired
    requires st'.root == st.root[c := st.root[p]] && Surplus(st', f) == Surplus(st, f) + k - 1
    requires f in st'.refs && st'.refs[f] == Owners(st.refs, f) + k <= REF_LIMIT
    ensures FrameOk(st', f, Staked(u, c, true, k))
  {
    ForkedCount(st, p, c, f, u);
    assert OwnersRelated(st', u.holders + {c});
  }

  lemma ForkedCount(st: State, p: int, c: int, f: nat, u: Users)
    requires FrameOk(st, f, u) && p in u.sharers && c !in st.root
    ensures |u.holders + {c}| == |u.holders| + 1 && |u.twice + {c}| == |u.twice| + 1
    ensures Owners(st.refs, f) == |u.holders| + Surplus(st, f)
  {
    assert c !in u.holders && c !in u.twice;
    if f !in st.refs {
      Singleton(u.holders, p);
    }
  }

  lemma RootGrows(st: State, st': State, c: int, r: int, holders: set<int>)
    requires OwnersRelated(st, holders) && c !in st.root && st'.root == st.root[c := r]
    ensures OwnersRelated(st', holders)
  {
  }

  lemma NoStake(u: Users, c: int)
    requires u.twice <= u.sharers <= u.holders && c !in u.holders
    ensures Staked(u, c, false, 0) == u
  {
    assert c !in u.sharers && c !in u.twice;
  }

  lemma UnforkedFrame(st: State, st': State, c: int, r: int, f: nat, u: Users)
    requires FrameOk(st, f, u) && c !in st.root
    requires st'.pool == st.pool && st'.kernel == st.kernel && st'.retired == st.retired
    requires st'.root == st.root[c := r] && Surplus(st', f) == Surplus(st, f)
    requires (f in st'.refs <==> f in st.refs) && (f in st.refs ==> st'.refs[f] == st.refs[f])
    ensures FrameOk(st', f, Staked(u, c, false, 0))
  {
    RootGrows(st, st', c, r, u.holders);
    NoStake(u, c);
  }

  /** What a fork counts is what the ranges list. */
  lemma ListingsAt(t: Table, listed: map<int, nat>, f: nat)
    requires f in Listings(t, listed)
    ensures exists va :: va in t && va in listed && t[va].frame == f && Listings(t, listed)[f] == listed[va]
  {
    var kid := Restrict(t, listed.Keys);
    assert AddressOf(kid, f) in kid;
  }

  lemma ListedAs(t: Table, listed: map<int, nat>, va: int)
    requires Injective(t) && va in t && va in listed
    ensures t[va].frame in Listings(t, listed) && Listings(t, listed)[t[va].frame] == listed[va]
  {
    var kid := Restrict(t, listed.Keys);
    assert kid[va].frame == t[va].frame;
    assert AddressOf(kid, t[va].frame) == va;
  }

  /** The books after a fork that counts the frames `more`. */
  ghost predicate ForkBooks(st: State, st': State, p: int, c: int, more: map<nat, nat>) {
    && st'.pool == st.pool && st'.kernel == st.kernel && st'.retired == st.retired
    && p in st.root && st'.root == st.root[c := st.root[p]] && st'.refs == RefIncBy(st.refs, more)
    && st'.surplus == MoreSurplus(st, more)
  }

  lemma SurplusAfter(st: State, st': State, more: map<nat, nat>, f: nat)
    requires st'.surplus == MoreSurplus(st, more)
    ensures Surplus(st', f) == Surplus(st, f) + if f in more && more[f] > 0 then more[f] - 1 else 0
  {
  }

  /** Every counted frame is one of the parent's, and no counter saturates. */
  ghost predicate MayFork(st: State, p: int, more: map<nat, nat>) {
    && p in st.spaces
    && forall f :: f in more ==> more[f] >= 1 && f in Frames(st.spaces[p]) && Owners(st.refs, f) + more[f] <= REF_LIMIT
  }

  lemma ForkMay(st: State, p: int, c: int, listed: map<int, nat>)
    requires Enabled(st, Fork(p, c, listed))
    ensures MayFork(st, p, Listings(Demote(st.spaces[p], listed.Keys), listed))
  {
    var t := st.spaces[p];
    var more := Listings(Demote(t, listed.Keys), listed);
    forall f | f in more
      ensures more[f] >= 1 && f in Frames(t) && Owners(st.refs, f) + more[f] <= REF_LIMIT
    {
      ListingsAt(Demote(t, listed.Keys), listed, f);
      var va :| va in t && va in listed && t[va].frame == f && more[f] == listed[va];
    }
  }

  lemma ForkIs(st: State, p: int, c: int, listed: map<int, nat>)
    requires Enabled(st, Fork(p, c, listed)) && p in st.root
    requires MayFork(st, p, Listings(Demote(st.spaces[p], listed.Keys), listed))
    ensures var st' := ForkNext(st, p, c, listed);
            var low := Demote(st.spaces[p], listed.Keys);
            var more := Listings(low, listed);
            && ForkBooks(st, st', p, c, more)
            && Replaces(st', st.(spaces := st.spaces[p := low]), c, Restrict(low, listed.Keys), more)
  {
  }

  lemma ForkFrame(st: State, st': State, p: int, c: int, more: map<nat, nat>, f: nat)
    requires ForkBooks(st, st', p, c, more) && MayFork(st, p, more) && Fits(st, f) && c !in st.root
    ensures FrameOk(st', f, Staked(UsersOf(st, f), c, f in more, CountIn(more, f)))
  {
    SurplusAfter(st, st', more, f);
    if f in more {
      assert p in UsersOf(st, f).sharers;
      ForkedFrame(st, st', p, c, f, UsersOf(st, f), more[f]);
    } else {
      UnforkedFrame(st, st', c, st.root[p], f, UsersOf(st, f));
    }
  }

  lemma ForkFits(st: State, st': State, p: int, c: int, low: Table, kid: Table, more: map<nat, nat>, f: nat)
    requires ForkBooks(st, st', p, c, more) && MayFork(st, p, more) && Fits(st, f) && c !in st.root
    requires Frames(low) == Frames(st.spaces[p]) && Frames(kid) == more.Keys && ListOk(more)
    requires Replaces(st', st.(spaces := st.spaces[p := low]), c, kid, more)
    ensures Fits(st', f)
  {
    var mid := st.(spaces := st.spaces[p := low]);
    UsersSame(st, mid, p, f);
    ForkFrame(st, st', p, c, more, f);
    FrameMoves(mid, st', c, kid, more, f);
  }

  /** A frame without a counter is mapped by one process only. */
  lemma UncountedIsPrivate(st: State, p: int, u: int, f: nat)
    requires Fits(st, f) && f !in st.refs
    requires p in st.spaces && u in st.spaces && u != p && f in Frames(st.spaces[p])
    ensures f !in Frames(st.spaces[u])
  {
    if f in Frames(st.spaces[u]) {
      assert u in Sharers(st.spaces, f) && p in Sharers(st.spaces, f);
      Singleton(Holders(st.tracked, f), p);
      assert false;
    }
  }

  /** A process that took no part in the fork maps no newly counted frame. */
  lemma BystanderTable(st: State, p: int, more: map<nat, nat>, u: int)
    requires AllFit(st) && MayFork(st, p, more) && u in st.spaces && u != p && TableOk(st.refs, st.spaces[u], true)
    ensures TableOk(RefIncBy(st.refs, more), st.spaces[u], true)
  {
    var w := st.spaces[u];
    forall va | va in w && w[va].frame in RefIncBy(st.refs, more)
      ensures !w[va].writable
    {
      var f := w[va].frame;
      if f !in st.refs {
        assert Fits(st, f);
        UncountedIsPrivate(st, p, u, f);
      }
    }
  }

  /** In parent and child, what the fork counts is read-only. */
  lemma ForkedTables(refs: map<nat, nat>, t: Table, listed: map<int, nat>, guarded: bool)
    requires TableOk(refs, t, guarded)
    ensures var low := Demote(t, listed.Keys);
            var refs' := RefIncBy(refs, Listings(low, listed));
            TableOk(refs', low, guarded) && TableOk(refs', Restrict(low, listed.Keys), guarded)
  {
    var low := Demote(t, listed.Keys);
    FramesOfDemoted(t, listed.Keys);
    FramesOfDemoted(low, listed.Keys);
  }

  lemma ForkTables(st: State, p: int, c: int, low: Table, kid: Table, more: map<nat, nat>, guarded: bool)
    requires AllFit(st) && TablesOk(st.refs, st.spaces, guarded) && MayFork(st, p, more)
    requires TableOk(RefIncBy(st.refs, more), low, guarded) && TableOk(RefIncBy(st.refs, more), kid, guarded)
    ensures TablesOk(RefIncBy(st.refs, more), st.spaces[p := low][c := kid], guarded)
  {
    var after := st.spaces[p := low][c := kid];
    forall u | u in after
      ensures TableOk(RefIncBy(st.refs, more), after[u], guarded)
    {
      if u != p && u != c {
        assert TableOk(st.refs, st.spaces[u], guarded);
        if guarded {
          BystanderTable(st, p, more, u);
        }
      }
    }
  }

  lemma ForkKeeps(st: State, p: int, c: int, listed: map<int, nat>, guarded: bool)
    requires Inv(st, guarded) && Enabled(st, Fork(p, c, listed))
    ensures Inv(Next(st, Fork(p, c, listed)), guarded)
  {
    var t := st.spaces[p];
    var low := Demote(t, listed.Keys);
    assert TableOk(st.refs, t, guarded);
    FramesOfDemoted(t, listed.Keys);
    ForkMay(st, p, c, listed);
    ForkIs(st, p, c, listed);
    ForkedTables(st.refs, t, listed, guarded);
    ForkedInv(st, ForkNext(st, p, c, listed), p, c, low, Restrict(low, listed.Keys), Listings(low, listed), guarded);
  }

  lemma ForkAllFit(st: State, st': State, p: int, c: int, low: Table, kid: Table, more: map<nat, nat>)
    requires AllFit(st) && ForkBooks(st, st', p, c, more) && MayFork(st, p, more) && c !in st.root
    requires Frames(low) == Frames(st.spaces[p]) && Frames(kid) == more.Keys && ListOk(more)
    requires Replaces(st', st.(spaces := st.spaces[p := low]), c, kid, more)
    ensures AllFit(st')
  {
    forall f: nat
      ensures Fits(st', f)
    {
      assert Fits(st, f);
      ForkFits(st, st', p, c, low, kid, more, f);
    }
  }

  lemma ForkedInv(st: State, st': State, p: int, c: int, low: Table, kid: Table, more: map<nat, nat>, guarded: bool)
    requires Inv(st, guarded) && ForkBooks(st, st', p, c, more) && MayFork(st, p, more) && c !in st.root
    requires Frames(low) == Frames(st.spaces[p]) && Frames(kid) == more.Keys
    requires TableOk(RefIncBy(st.refs, more), low, guarded) && TableOk(RefIncBy(st.refs, more), kid, guarded)
    requires Replaces(st', st.(spaces := st.spaces[p := low]), c, kid, more)
    ensures Inv(st', guarded)
  {
    ForkedSpaces(st, st', p, c, low, kid, more, guarded);
    ForkAllFit(st, st', p, c, low, kid, more);
  }

  lemma ForkedSpaces(st: State, st': State, p: int, c: int, low: Table, kid: Table, more: map<nat, nat>, guarded: bool)
    requires Inv(st, guarded) && ForkBooks(st, st', p, c, more) && MayFork(st, p, more)
    requires TableOk(RefIncBy(st.refs, more), low, guarded) && TableOk(RefIncBy(st.refs, more), kid, guarded)
    requires Replaces(st', st.(spaces := st.spaces[p := low]), c, kid, more)
    ensures Wf(st'.pool) && st'.root.Keys == st'.spaces.Keys == st'.tracked.Keys
    ensures TablesOk(st'.refs, st'.spaces, guarded) && ListsOk(st'.tracked)
  {
    ForkTables(st, p, c, low, kid, more, guarded);
    ListsStayOk(st.tracked, c, more);
  }

  // ---------------------------------------------------------------- the remaining steps

  lemma SpawnFits(st: State, s: int, f: nat)
    requires Enabled(st, Spawn(s)) && Fits(st, f) && s !in st.root && s !in st.tracked
    ensures Fits(Next(st, Spawn(s)), f)
  {
    var st' := Next(st, Spawn(s));
    var none: Table := map[];
    assert Frames(none) == {};
    UnforkedFrame(st, st', s, s, f, UsersOf(st, f));
    Touched(st, st', s, f, false, 0);
  }

  lemma SpawnKeeps(st: State, s: int, guarded: bool)
    requires Inv(st, guarded) && Enabled(st, Spawn(s))
    ensures Inv(Next(st, Spawn(s)), guarded)
  {
    TablesStayOk(st.refs, st.refs, st.spaces, s, map[], guarded);
    ListsStayOk(st.tracked, s, map[]);
    forall f: nat
      ensures Fits(Next(st, Spawn(s)), f)
    {
      assert Fits(st, f);
      SpawnFits(st, s, f);
    }
  }

  lemma ReapFits(st: State, s: int, f: nat)
    requires Enabled(st, Reap(s)) && Fits(st, f)
    ensures Fits(Next(st, Reap(s)), f)
  {
    var st' := Next(st, Reap(s));
    var none: Table := map[];
    assert Frames(none) == {};
    UsersSame(st, st', s, f);
  }

  lemma ReapKeeps(st: State, s: int, guarded: bool)
    requires Inv(st, guarded) && Enabled(st, Reap(s))
    ensures Inv(Next(st, Reap(s)), guarded)
  {
    forall f: nat
      ensures Fits(Next(st, Reap(s)), f)
    {
      assert Fits(st, f);
      ReapFits(st, s, f);
    }
  }

  lemma SameUsers(st: State, st': State, f: nat)
    requires st'.spaces == st.spaces && st'.tracked == st.tracked
    ensures UsersOf(st', f) == UsersOf(st, f)
  {
  }

  lemma TakeFrame(st: State, count: nat, f: nat, u: Users)
    requires FrameOk(st, f, u)
    ensures FrameOk(Next(st, KernelTake(count)), f, u)
  {
  }

  lemma GiveFrame(st: State, page: nat, f: nat, u: Users)
    requires page in st.kernel && FrameOk(st, f, u) && page !in st.refs
    ensures FrameOk(Next(st, KernelGive(page)), f, u)
  {
  }

  lemma TakeKeeps(st: State, count: nat, guarded: bool)
    requires Inv(st, guarded)
    ensures Inv(Next(st, KernelTake(count)), guarded)
  {
    forall f: nat
      ensures Fits(Next(st, KernelTake(count)), f)
    {
      assert Fits(st, f);
      TakeFrame(st, count, f, UsersOf(st, f));
      SameUsers(st, Next(st, KernelTake(count)), f);
    }
  }

  lemma GiveKeeps(st: State, page: nat, guarded: bool)
    requires Inv(st, guarded) && page in st.kernel
    ensures Inv(Next(st, KernelGive(page)), guarded)
  {
    assert Fits(st, page);
    forall f: nat
      ensures Fits(Next(st, KernelGive(page)), f)
    {
      assert Fits(st, f);
      GiveFrame(st, page, f, UsersOf(st, f));
      SameUsers(st, Next(st, KernelGive(page)), f);
    }
  }

  lemma WriteKeeps(st: State, s: int, va: int, data: Page, guarded: bool)
    requires Inv(st, guarded) && Enabled(st, Write(s, va, data))
    ensures Inv(Next(st, Write(s, va, data)), guarded)
  {
    var st' := Next(st, Write(s, va, data));
    forall f: nat
      ensures Fits(st', f)
    {
      assert Fits(st, f);
      Untouched(st, st', s, f);
    }
  }

  /**
   A fault on a shared page finds a frame for the copy. The one other case is a fault in a lazy region
   with no frame left: the page is then made writable although it is shared.
   */
  ghost predicate Backed(st: State, step: Step)
    requires Enabled(st, step)
  {
    step.WriteFault? && step.lazy && st.spaces[step.space][step.va].frame in st.refs ==> st.pool.free != {}
  }

  lemma FaultKeeps(st: State, s: int, va: int, lazy: bool, guarded: bool)
    requires Inv(st, guarded) && Enabled(st, WriteFault(s, va, lazy))
    requires guarded ==> Backed(st, WriteFault(s, va, lazy))
    ensures Inv(Next(st, WriteFault(s, va, lazy)), guarded)
  {
    if st.spaces[s][va].frame in st.refs && st.pool.free != {} {
      CopyKeeps(st, s, va, guarded);
    } else if lazy {
      UpgradeKeeps(st, s, va, guarded);
    }
  }

  /** Counts and roles survive every step; read-only sharing survives every backed step. */
  lemma StepKeepsInv(st: State, step: Step, guarded: bool)
    requires Inv(st, guarded) && Enabled(st, step) && (guarded ==> Backed(st, step))
    ensures Inv(Next(st, step), guarded)
  {
    match step
    case Spawn(s) => SpawnKeeps(st, s, guarded);
    case MapFresh(_, _, _, _) => MapFreshKeeps(st, step, guarded);
    case Fork(p, c, listed) => ForkKeeps(st, p, c, listed, guarded);
    case Write(s, va, data) => WriteKeeps(st, s, va, data, guarded);
    case WriteFault(s, va, lazy) => FaultKeeps(st, s, va, lazy, guarded);
    case Unmap(s, va) => RemoveKeeps(st, s, va, guarded);
    case Evict(s, va) => RemoveKeeps(st, s, va, guarded);
    case Drop(s, f) => DropKeeps(st, s, f, guarded);
    case Reap(s) => ReapKeeps(st, s, guarded);
    case KernelTake(count) => TakeKeeps(st, count, guarded);
    case KernelGive(page) => GiveKeeps(st, page, guarded);
  }

  /** Read-only sharing survives a step exactly if the step is backed. */
  lemma GuardKeptExactly(st: State, step: Step)
    requires Inv(st, true) && Enabled(st, step)
    ensures Inv(Next(st, step), true) <==> Backed(st, step)
  {
    if Backed(st, step) {
      StepKeepsInv(st, step, true);
    } else {
      var st' := Next(st, step);
      var t := st'.spaces[step.space];
      assert t[step.va].writable && t[step.va].frame in st'.refs;
      assert !TableOk(st'.refs, t, true);
    }
  }
}
