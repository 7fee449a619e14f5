/**
 Frames that copy-on-write loses: retired by a write fault of the last counted sharer, or stranded
 with a counter when the last space that has them on its list goes.
 */
module CowRetirement {
  import opened Prelude
  import opened PagePool
  import opened RefCounts
  import opened CowModel
  import opened CowSharing
  import opened CowRuns

  /** A write fault by the last counted sharer, with a page left to copy into. */
  ghost predicate RetiringFault(st: State, step: Step)
    requires Enabled(st, step)
  {
    && step.WriteFault? && st.pool.free != {}
    && RefGet(st.refs, st.spaces[step.space][step.va].frame) == 1
  }

  lemma FaultRetires(st: State, step: Step)
    requires Inv(st, false) && Enabled(st, step) && step.WriteFault?
    ensures Next(st, step).retired != st.retired <==> RetiringFault(st, step)
  {
    var f := st.spaces[step.space][step.va].frame;
    assert Fits(st, f) && step.space in Sharers(st.spaces, f);
    if f in st.refs && st.pool.free != {} {
      CopyIs(st, step.space, step.va, AllocOne(st.pool).1.value);
      assert f !in st.retired;
    }
  }

  /** Exactly these faults retire a frame: the old page is neither mapped nor given back. */
  lemma RetiresExactly(st: State, step: Step)
    requires Inv(st, false) && Enabled(st, step)
    ensures Next(st, step).retired != st.retired <==> RetiringFault(st, step)
  {
    if step.WriteFault? {
      FaultRetires(st, step);
    }
  }

  // ---------------------------------------------------------------- which steps lose a frame

  ghost predicate IsLost(st: State, f: nat) {
    f in st.retired || IsStranded(st, f)
  }

  /** The step takes frame f from the list of space s. */
  ghost predicate EndsHold(st: State, step: Step, s: int, f: nat)
    requires Enabled(st, step)
  {
    match step
    case Unmap(u, va) => u == s && st.spaces[u][va].frame == f && CountOf(st, s, f) == 1
    case Evict(u, va) => u == s && st.spaces[u][va].frame == f && CountOf(st, s, f) == 1
    case WriteFault(u, va, _) =>
      u == s && st.spaces[u][va].frame == f && CountOf(st, s, f) == 1 && f in st.refs && st.pool.free != {}
    case Drop(u, g) => u == s && g == f
    case _ => false
  }

  /** The last hold ends, and the frame is counted once more than that, or is not looked at again. */
  ghost predicate LosesFrame(st: State, step: Step, f: nat)
    requires Enabled(st, step)
  {
    exists s :: Holders(st.tracked, f) == {s} && EndsHold(st, step, s, f)
                && f in st.refs && (step.WriteFault? || st.refs[f] >= 2)
  }

  lemma HoldersAfter(tracked: map<int, map<nat, nat>>, s: int, l: map<nat, nat>, f: nat)
    ensures Holders(tracked[s := l], f) == With(Holders(tracked, f), s, f in l)
  {
  }

  /** Frames whose list entries and books stay are lost if they were. */
  lemma LostStays(st: State, st': State, f: nat)
    requires Holders(st'.tracked, f) == Holders(st.tracked, f) && SameRole(st', st, f)
    ensures IsLost(st', f) <==> IsLost(st, f)
  {
  }

  lemma SameHolders(st: State, st': State, s: int, t: Table, l: map<nat, nat>, f: nat)
    requires Replaces(st', st, s, t, l) && (f in l <==> s in st.tracked && f in st.tracked[s])
    ensures Holders(st'.tracked, f) == Holders(st.tracked, f)
  {
    HoldersAfter(st.tracked, s, l, f);
  }

  /** The frame was on the list of s, and is not any more. */
  lemma HoldGone(st: State, st': State, s: int, t: Table, l: map<nat, nat>, f: nat)
    requires Replaces(st', st, s, t, l) && s in st.tracked && f in st.tracked[s] && f !in l
    ensures s in Holders(st.tracked, f)
    ensures Holders(st'.tracked, f) == {} <==> Holders(st.tracked, f) == {s}
  {
    HoldersAfter(st.tracked, s, l, f);
  }

  /** The loss of a frame by the end of its last hold. */
  lemma EndDecides(st: State, step: Step, s: int, f: nat)
    requires Enabled(st, step) && EndsHold(st, step, s, f) && s in Holders(st.tracked, f)
    ensures LosesFrame(st, step, f) <==>
            Holders(st.tracked, f) == {s} && f in st.refs && (step.WriteFault? || st.refs[f] >= 2)
  {
  }

  lemma NoEnd(st: State, step: Step, f: nat)
    requires Enabled(st, step) && forall s :: !EndsHold(st, step, s, f)
    ensures !LosesFrame(st, step, f)
  {
  }

  /** Lost frames stay lost, and the step loses this one exactly if it says so. */
  ghost predicate LossIs(st: State, step: Step, f: nat)
    requires Enabled(st, step)
  {
    IsLost(Next(st, step), f) <==> IsLost(st, f) || LosesFrame(st, step, f)
  }

  lemma RemoveLoss(st: State, step: Step, f: nat)
    requires Inv(st, false) && Enabled(st, step) && (step.Unmap? || step.Evict?)
    ensures LossIs(st, step, f)
  {
    var s, va := step.space, step.va;
    var g, st' := st.spaces[s][va].frame, Remove(st, s, va);
    var t, l := st.spaces[s] - {va}, Forget(st.tracked[s], g);
    assert Fits(st, f) && Fits(st, g) && ListOk(st.tracked[s]);
    MappedIsTracked(st, s, va);
    ForgetKeepsList(st.tracked[s], g);
    RemoveReplaces(st, s, va);
    if f != g {
      RemoveRole(st, s, va, f);
      SameHolders(st, st', s, t, l, f);
      LostStays(st, st', f);
      NoEnd(st, step, f);
    } else if CountOf(st, s, g) >= 2 {
      SameHolders(st, st', s, t, l, f);
      NoEnd(st, step, f);
    } else {
      HoldGone(st, st', s, t, l, f);
      EndDecides(st, step, s, f);
      ReleaseLoss(st, st', s, f);
    }
  }

  /** A released frame is lost exactly if this was the last hold and its counter goes on. */
  lemma ReleaseLoss(st: State, st': State, s: int, f: nat)
    requires Fits(st, f) && s in Holders(st.tracked, f)
    requires Holders(st'.tracked, f) == {} <==> Holders(st.tracked, f) == {s}
    requires st'.refs == RefDec(st.refs, f).0 && (f in st'.retired <==> f in st.retired)
    ensures IsLost(st', f) <==> Holders(st.tracked, f) == {s} && f in st.refs && st.refs[f] >= 2
    ensures !IsLost(st, f)
  {
  }

  lemma DropLoss(st: State, step: Step, f: nat)
    requires Inv(st, false) && Enabled(st, step) && step.Drop?
    ensures LossIs(st, step, f)
  {
    var s, g, st' := step.space, step.frame, Next(st, step);
    var t, l := Without(st.spaces[s], g), st.tracked[s] - {g};
    assert Fits(st, f);
    if f != g {
      ReleaseRole(st, g, f);
      SameHolders(st, st', s, t, l, f);
      LostStays(st, st', f);
      NoEnd(st, step, f);
    } else {
      HoldGone(st, st', s, t, l, f);
      EndDecides(st, step, s, f);
      ReleaseLoss(st, st', s, f);
    }
  }

  /** A frame that a fault leaves behind is lost exactly if this was the last hold. */
  lemma AbandonLoss(st: State, st': State, s: int, f: nat, n: nat)
    requires Fits(st, f) && s in Holders(st.tracked, f) && f in st.refs && CopyBooks(st, st', f, n, 1)
    requires Holders(st'.tracked, f) == {} <==> Holders(st.tracked, f) == {s}
    ensures IsLost(st', f) <==> Holders(st.tracked, f) == {s}
    ensures !IsLost(st, f)
  {
    LastHolder(st, s, f, UsersOf(st, f));
  }

  lemma CopyLoss(st: State, step: Step, n: nat, f: nat)
    requires Inv(st, false) && Enabled(st, step) && step.WriteFault? && AllocOne(st.pool).1 == Some(n)
    requires st.spaces[step.space][step.va].frame in st.refs
    ensures LossIs(st, step, f)
  {
    var s, va := step.space, step.va;
    var g, st' := st.spaces[s][va].frame, CopyOnFault(st, s, va);
    var t, l := st.spaces[s][va := Pte(n, true)], Forget(Track(st.tracked[s], n), g);
    assert Fits(st, f) && Fits(st, g) && Fits(st, n) && ListOk(st.tracked[s]);
    FreeIsUnshared(st, n);
    MappedIsTracked(st, s, va);
    ForgetKeepsList(st.tracked[s], n);
    ForgetKeepsList(Track(st.tracked[s], n), g);
    CopyIs(st, s, va, n);
    if f == n {
      HoldersAfter(st.tracked, s, l, f);
      NoEnd(st, step, f);
    } else if f != g {
      CopyRole(st, st', g, n, CountOf(st, s, g), f);
      SameHolders(st, st', s, t, l, f);
      LostStays(st, st', f);
      NoEnd(st, step, f);
    } else if CountOf(st, s, g) >= 2 {
      SameHolders(st, st', s, t, l, f);
      OvercountedOnce(st, s, f, UsersOf(st, f));
      NoEnd(st, step, f);
    } else {
      HoldGone(st, st', s, t, l, f);
      EndDecides(st, step, s, f);
      AbandonLoss(st, st', s, f, n);
    }
  }

  lemma FaultLoss(st: State, step: Step, f: nat)
    requires Inv(st, false) && Enabled(st, step) && step.WriteFault?
    ensures LossIs(st, step, f)
  {
    if st.spaces[step.space][step.va].frame in st.refs && st.pool.free != {} {
      CopyLoss(st, step, AllocOne(st.pool).1.value, f);
    } else {
      NoEnd(st, step, f);
    }
  }

  lemma MapFreshLoss(st: State, step: Step, f: nat)
    requires Inv(st, false) && Enabled(st, step) && step.MapFresh?
    ensures LossIs(st, step, f)
  {
    NoEnd(st, step, f);
    var page := AllocOne(st.pool).1;
    if page.Some? {
      var s, n := step.space, page.value;
      assert Fits(st, n);
      HoldersAfter(st.tracked, s, Track(st.tracked[s], n), f);
      if f != n {
        MapFreshRole(st, step, f);
        assert f in Track(st.tracked[s], n) <==> f in st.tracked[s];
        LostStays(st, Next(st, step), f);
      }
    }
  }

  lemma ForkLoss(st: State, step: Step, f: nat)
    requires Inv(st, false) && Enabled(st, step) && step.Fork?
    ensures LossIs(st, step, f)
  {
    var p, c, listed := step.parent, step.child, step.listed;
    var more := Listings(Demote(st.spaces[p], listed.Keys), listed);
    NoEnd(st, step, f);
    assert Fits(st, f);
    HoldersAfter(st.tracked, c, more, f);
    ForkMay(st, p, c, listed);
    ForkIs(st, p, c, listed);
    if f in more {
      assert p in Sharers(st.spaces, f);
    } else {
      assert c !in Holders(st.tracked, f);
    }
  }

  lemma OtherLoss(st: State, step: Step, f: nat)
    requires Inv(st, false) && Enabled(st, step)
    requires step.Spawn? || step.Write? || step.Reap? || step.KernelTake? || step.KernelGive?
    ensures LossIs(st, step, f)
  {
    NoEnd(st, step, f);
    if step.Spawn? {
      HoldersAfter(st.tracked, step.space, map[], f);
      assert step.space !in Holders(st.tracked, f);
    } else if step.Reap? {
      assert Holders(st.tracked - {step.space}, f) == Holders(st.tracked, f);
    } else if step.KernelGive? {
      assert Fits(st, step.page);
    }
  }

  /** A step loses a frame exactly if it ends the last hold of a frame that is counted beyond it. */
  lemma LosesExactly(st: State, step: Step, f: nat)
    requires Inv(st, false) && Enabled(st, step)
    ensures IsLost(Next(st, step), f) <==> IsLost(st, f) || LosesFrame(st, step, f)
  {
    match step
    case Unmap(_, _) => RemoveLoss(st, step, f);
    case Evict(_, _) => RemoveLoss(st, step, f);
    case WriteFault(_, _, _) => FaultLoss(st, step, f);
    case Drop(_, _) => DropLoss(st, step, f);
    case MapFresh(_, _, _, _) => MapFreshLoss(st, step, f);
    case Fork(_, _, _) => ForkLoss(st, step, f);
    case _ => OtherLoss(st, step, f);
  }

  // ---------------------------------------------------------------- over runs

  /** Some step of the run loses the frame. */
  ghost predicate RunLoses(st: State, steps: seq<Step>, f: nat)
    requires Feasible(st, steps)
    decreases |steps|
  {
    steps != [] && (LosesFrame(st, steps[0], f) || RunLoses(Next(st, steps[0]), steps[1..], f))
  }

  lemma {:induction false} LostRun(st: State, steps: seq<Step>, f: nat)
    requires Inv(st, false) && Feasible(st, steps)
    ensures IsLost(After(st, steps), f) <==> IsLost(st, f) || RunLoses(st, steps, f)
    decreases |steps|
  {
    if steps != [] {
      StepKeepsInv(st, steps[0], false);
      LosesExactly(st, steps[0], f);
      LostRun(Next(st, steps[0]), steps[1..], f);
    }
  }

  /** A frame is lost after a run from boot exactly if some step of the run loses it. */
  lemma NoLeakExactly(pool: Pool, steps: seq<Step>, f: nat)
    requires Wf(pool) && Feasible(Boot(pool), steps)
    ensures IsLost(After(Boot(pool), steps), f) <==> RunLoses(Boot(pool), steps, f)
  {
    BootInv(pool, false);
    LostRun(Boot(pool), steps, f);
  }

  // ---------------------------------------------------------------- runs that lose frames

  /** Two spaces map frame f read-only at va. */
  ghost predicate SharedBy(st: State, p: int, c: int, va: int, f: nat) {
    && p in st.spaces && va in st.spaces[p] && st.spaces[p][va] == Pte(f, false)
    && c in st.spaces && va in st.spaces[c] && st.spaces[c][va] == Pte(f, false) && p != c
  }

  /** The fork that shares one page and lists it k times. */
  function ForkPage(p: int, c: int, va: int, k: nat): Step {
    Fork(p, c, map[va := k])
  }

  /** Frame f is p's alone, mapped writable at va. */
  ghost predicate Private(st: State, p: int, va: int, f: nat) {
    && p in st.spaces && p in st.tracked && va in st.spaces[p] && st.spaces[p][va] == Pte(f, true)
    && Injective(st.spaces[p]) && CountOf(st, p, f) == 1 && Holders(st.tracked, f) == {p} && f !in st.refs
  }

  /** Read-only sharing makes every writable page private. */
  lemma WritableIsPrivate(st: State, p: int, va: int)
    requires Inv(st, true) && Mapped(st, p, va) && st.spaces[p][va].writable
    ensures Private(st, p, va, st.spaces[p][va].frame)
  {
    var f := st.spaces[p][va].frame;
    assert Fits(st, f) && TableOk(st.refs, st.spaces[p], true) && ListOk(st.tracked[p]);
    MappedIsTracked(st, p, va);
    Singleton(Holders(st.tracked, f), p);
    if CountOf(st, p, f) >= 2 {
      OvercountedOnce(st, p, f, UsersOf(st, f));
      assert false;
    }
  }

  lemma OnePage(t: Table, va: int)
    requires va in t
    ensures Restrict(Demote(t, {va}), {va}) == map[va := Pte(t[va].frame, false)]
    ensures Frames(map[va := Pte(t[va].frame, false)]) == {t[va].frame}
  {
    var one: Table := map[va := Pte(t[va].frame, false)];
    assert one[va].frame == t[va].frame;
  }

  lemma PageListing(t: Table, va: int, listed: map<int, nat>)
    requires Injective(t) && va in t && listed.Keys == {va}
    ensures Listings(Demote(t, {va}), listed) == map[t[va].frame := listed[va]]
  {
    FramesOfDemoted(t, {va});
    OnePage(t, va);
    ListedAs(Demote(t, {va}), listed, va);
  }

  /** What the fork of one page does, spelled out. */
  ghost predicate PageForked(st: State, t: State, p: int, c: int, va: int, f: nat, k: nat)
    requires p in st.spaces
  {
    && t.refs == RefIncBy(st.refs, map[f := k]) && t.tracked == st.tracked[c := map[f := k]]
    && t.spaces == st.spaces[p := Demote(st.spaces[p], {va})][c := map[va := Pte(f, false)]]
    && t.pool == st.pool && t.retired == st.retired
  }

  lemma ForkPageIs(st: State, p: int, c: int, va: int, f: nat, listed: map<int, nat>)
    requires Private(st, p, va, f) && Unused(st, c) && listed.Keys == {va} && 1 <= listed[va] < REF_LIMIT
    ensures Enabled(st, Fork(p, c, listed))
    ensures PageForked(st, ForkNext(st, p, c, listed), p, c, va, f, listed[va])
  {
    PageListing(st.spaces[p], va, listed);
    OnePage(st.spaces[p], va);
  }

  lemma ForkPageShares(st: State, t: State, p: int, c: int, va: int, f: nat, k: nat)
    requires Private(st, p, va, f) && Unused(st, c) && c !in st.tracked && 1 <= k < REF_LIMIT
    requires PageForked(st, t, p, c, va, f, k)
    ensures SharedBy(t, p, c, va, f) && f in t.refs && t.refs[f] == 1 + k && p in t.tracked && c in t.tracked
    ensures CountOf(t, p, f) == 1 && CountOf(t, c, f) == k && Holders(t.tracked, f) == {p, c}
  {
    HoldersAfter(st.tracked, c, map[f := k], f);
  }

  /** After a fork, parent and child map the page read-only and it is counted for both. */
  lemma ForkCounts(st: State, p: int, c: int, va: int, f: nat, k: nat)
    requires Private(st, p, va, f) && Unused(st, c) && c !in st.tracked && 1 <= k < REF_LIMIT
    ensures Enabled(st, ForkPage(p, c, va, k))
    ensures var t := Next(st, ForkPage(p, c, va, k));
            && SharedBy(t, p, c, va, f) && f in t.refs && t.refs[f] == 1 + k && t.pool == st.pool
            && t.retired == st.retired && p in t.tracked && c in t.tracked && CountOf(t, p, f) == 1
            && CountOf(t, c, f) == k && Holders(t.tracked, f) == {p, c}
  {
    ForkPageIs(st, p, c, va, f, map[va := k]);
    ForkPageShares(st, Next(st, ForkPage(p, c, va, k)), p, c, va, f, k);
  }

  /** A fault on a counted frame by a space that counts it once drops a reference and the hold. */
  lemma FaultDrops(st: State, s: int, va: int, lazy: bool, f: nat)
    requires Mapped(st, s, va) && st.spaces[s][va] == Pte(f, false) && CountOf(st, s, f) == 1
    requires f in st.refs && f !in st.pool.free && st.pool.free != {}
    ensures Enabled(st, WriteFault(s, va, lazy))
    ensures var t := Next(st, WriteFault(s, va, lazy));
            && (forall u :: u in st.spaces && u != s ==> u in t.spaces && t.spaces[u] == st.spaces[u])
            && (forall u :: u in st.tracked && u != s ==> u in t.tracked && t.tracked[u] == st.tracked[u])
            && |t.pool.free| == |st.pool.free| - 1 && t.pool.free <= st.pool.free
            && (st.refs[f] > 1 ==> f in t.refs && t.refs[f] == st.refs[f] - 1)
            && (st.refs[f] <= 1 ==> f in t.retired)
  {
    CopyIs(st, s, va, AllocOne(st.pool).1.value);
  }

  lemma RunOfThree(st: State, one: State, two: State, a: Step, b: Step, c: Step)
    requires Enabled(st, a) && one == Next(st, a) && Enabled(one, b) && two == Next(one, b) && Enabled(two, c)
    ensures Feasible(st, [a, b, c]) && After(st, [a, b, c]) == Next(two, c)
  {
    assert [a, b, c][1..] == [b, c] && [b, c][1..] == [c] && [c][1..] == [];
    assert Feasible(Next(two, c), []) && After(Next(two, c), []) == Next(two, c);
    assert Feasible(two, [c]) && After(two, [c]) == Next(two, c);
    assert Feasible(one, [b, c]) && After(one, [b, c]) == Next(two, c);
  }

  /** The steps can be taken and the frame is lost. */
  ghost predicate Loses(st: State, steps: seq<Step>, f: nat) {
    Feasible(st, steps) && IsLost(After(st, steps), f)
  }

  /** Wherever a process forks with a private page and both sides write to it, the original frame is lost. */
  lemma BothWritersLeak(st: State, p: int, c: int, va: int, lazy: bool, f: nat)
    requires Private(st, p, va, f) && Unused(st, c) && c !in st.tracked
    requires |st.pool.free| >= 2 && f !in st.pool.free
    ensures Loses(st, [ForkPage(p, c, va, 1), WriteFault(c, va, lazy), WriteFault(p, va, lazy)], f)
  {
    ForkCounts(st, p, c, va, f, 1);
    var forked := Next(st, ForkPage(p, c, va, 1));
    FaultDrops(forked, c, va, lazy, f);
    var one := Next(forked, WriteFault(c, va, lazy));
    FaultDrops(one, p, va, lazy, f);
    RunOfThree(st, forked, one, ForkPage(p, c, va, 1), WriteFault(c, va, lazy), WriteFault(p, va, lazy));
  }

  lemma DropDrops(st: State, s: int, f: nat)
    requires s in st.spaces && s in st.tracked && f in st.tracked[s] && f in st.refs && st.refs[f] >= 2
    ensures Enabled(st, Drop(s, f))
    ensures var t := Next(st, Drop(s, f));
            && f in t.refs && t.refs[f] == st.refs[f] - 1 && t.pool == st.pool
            && (forall u :: u in st.spaces && u != s ==> u in t.spaces)
            && (forall u :: u in st.tracked && u != s ==> u in t.tracked && t.tracked[u] == st.tracked[u])
            && Holders(t.tracked, f) == Holders(st.tracked, f) - {s}
  {
    HoldersAfter(st.tracked, s, st.tracked[s] - {f}, f);
  }

  /**
   Wherever a process forks with a private page that is listed twice, and both processes exit, the
   frame is lost: it is counted once and on no list.
   */
  lemma TwiceListedStrands(st: State, p: int, c: int, va: int, f: nat)
    requires Private(st, p, va, f) && Unused(st, c) && c !in st.tracked
    ensures Loses(st, [ForkPage(p, c, va, 2), Drop(c, f), Drop(p, f)], f)
    ensures var end := After(st, [ForkPage(p, c, va, 2), Drop(c, f), Drop(p, f)]);
            IsStranded(end, f) && end.refs[f] == 1 && end.pool == st.pool
  {
    ForkCounts(st, p, c, va, f, 2);
    var forked := Next(st, ForkPage(p, c, va, 2));
    DropDrops(forked, c, f);
    var one := Next(forked, Drop(c, f));
    DropDrops(one, p, f);
    RunOfThree(st, forked, one, ForkPage(p, c, va, 2), Drop(c, f), Drop(p, f));
  }

  /** Process 1 maps the only frame there is. */
  function FirstPage(va: int): seq<Step> {
    [Spawn(1)] + [MapFresh(1, va, ZERO_PAGE, true)]
  }

  lemma FirstPageMapped(va: int)
    ensures var boot := Boot(Pool(1, {0}, 0));
            && Feasible(boot, FirstPage(va)) && Private(After(boot, FirstPage(va)), 1, va, 0)
            && Unused(After(boot, FirstPage(va)), 2) && 2 !in After(boot, FirstPage(va)).tracked
            && After(boot, FirstPage(va)).pool.free == {}
  {
    var boot := Boot(Pool(1, {0}, 0));
    assert Feasible(boot, []) && After(boot, []) == boot;
    RunSnoc(boot, [], Spawn(1));
    assert [] + [Spawn(1)] == [Spawn(1)];
    RunSnoc(boot, [Spawn(1)], MapFresh(1, va, ZERO_PAGE, true));
    var spawned := Next(boot, Spawn(1));
    var mapped := Next(spawned, MapFresh(1, va, ZERO_PAGE, true));
    assert AllocOne(spawned.pool).1 == Some(0);
    assert mapped.spaces[1] == map[va := Pte(0, true)] && mapped.tracked[1] == map[0 := 1];
    assert Holders(mapped.tracked, 0) == {1};
  }

  /** A run from boot with one frame: one fork that lists the page twice, two exits, and no memory left. */
  lemma StrandedFromBoot(va: int)
    ensures var boot := Boot(Pool(1, {0}, 0));
            var steps := FirstPage(va) + [ForkPage(1, 2, va, 2)] + [Drop(2, 0)] + [Drop(1, 0)];
            && Feasible(boot, steps) && IsStranded(After(boot, steps), 0) && After(boot, steps).pool.free == {}
  {
    var boot := Boot(Pool(1, {0}, 0));
    FirstPageMapped(va);
    var st := After(boot, FirstPage(va));
    ForkCounts(st, 1, 2, va, 0, 2);
    RunSnoc(boot, FirstPage(va), ForkPage(1, 2, va, 2));
    var forked := Next(st, ForkPage(1, 2, va, 2));
    DropDrops(forked, 2, 0);
    RunSnoc(boot, FirstPage(va) + [ForkPage(1, 2, va, 2)], Drop(2, 0));
    DropDrops(Next(forked, Drop(2, 0)), 1, 0);
    RunSnoc(boot, FirstPage(va) + [ForkPage(1, 2, va, 2)] + [Drop(2, 0)], Drop(1, 0));
  }
}
