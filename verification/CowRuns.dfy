/** Runs of copy-on-write sharing from boot. */
module CowRuns {
  import opened Prelude
  import opened PagePool
  import opened CowModel
  import opened CowSharing

  ghost predicate Feasible(st: State, steps: seq<Step>)
    decreases |steps|
  {
    steps == [] || (Enabled(st, steps[0]) && Feasible(Next(st, steps[0]), steps[1..]))
  }

  ghost function After(st: State, steps: seq<Step>): State
    requires Feasible(st, steps)
    decreases |steps|
  {
    if steps == [] then st else After(Next(st, steps[0]), steps[1..])
  }

  /** One more step at the end of a run. */
  lemma {:induction false} RunSnoc(st: State, steps: seq<Step>, s: Step)
    requires Feasible(st, steps) && Enabled(After(st, steps), s)
    ensures Feasible(st, steps + [s]) && After(st, steps + [s]) == Next(After(st, steps), s)
    decreases |steps|
  {
    if steps == [] {
      assert [s][1..] == [];
      assert Feasible(Next(st, s), []) && After(Next(st, s), []) == Next(st, s);
      assert steps + [s] == [s];
    } else {
      RunSnoc(Next(st, steps[0]), steps[1..], s);
      assert (steps + [s])[1..] == steps[1..] + [s];
    }
  }

  /** Every step of the run is backed. */
  ghost predicate RunBacked(st: State, steps: seq<Step>)
    requires Feasible(st, steps)
    decreases |steps|
  {
    steps == [] || (Backed(st, steps[0]) && RunBacked(Next(st, steps[0]), steps[1..]))
  }

  lemma {:induction false} InvThroughout(st: State, steps: seq<Step>, guarded: bool)
    requires Inv(st, guarded) && Feasible(st, steps) && (guarded ==> RunBacked(st, steps))
    ensures Inv(After(st, steps), guarded)
    decreases |steps|
  {
    if steps != [] {
      StepKeepsInv(st, steps[0], guarded);
      InvThroughout(Next(st, steps[0]), steps[1..], guarded);
    }
  }

  // ---------------------------------------------------------------- where all frames are

  ghost predicate IsMapped(st: State, f: nat) {
    Sharers(st.spaces, f) != {}
  }

  /** On the list of some space, but mapped by none. */
  ghost predicate IsLingering(st: State, f: nat) {
    Holders(st.tracked, f) != {} && Sharers(st.spaces, f) == {}
  }

  /** Counted, but on no list: nobody will ever give it back. */
  ghost predicate IsStranded(st: State, f: nat) {
    f in st.refs && Holders(st.tracked, f) == {}
  }

  ghost function MappedFrames(st: State): (r: set<nat>)
    ensures forall f: nat :: f in r <==> f < st.pool.total && IsMapped(st, f)
  {
    set f: nat | f in Interval(0, st.pool.total) && IsMapped(st, f)
  }

  ghost function LingeringFrames(st: State): (r: set<nat>)
    ensures forall f: nat :: f in r <==> f < st.pool.total && IsLingering(st, f)
  {
    set f: nat | f in Interval(0, st.pool.total) && IsLingering(st, f)
  }

  ghost function StrandedFrames(st: State): (r: set<nat>)
    ensures forall f: nat :: f in r <==> f < st.pool.total && IsStranded(st, f)
  {
    set f: nat | f in Interval(0, st.pool.total) && IsStranded(st, f)
  }

  /** used frames = mapped + lingering + kernel-held + retired + stranded */
  lemma UsedFramesAddUp(st: State)
    requires Inv(st, false)
    ensures st.pool.total - |st.pool.free|
         == |MappedFrames(st)| + |LingeringFrames(st)| + |st.kernel| + |st.retired| + |StrandedFrames(st)|
  {
    var sets := [st.pool.free, MappedFrames(st), LingeringFrames(st), st.kernel, st.retired, StrandedFrames(st)];
    forall f: nat
      ensures InOne(sets, f, st.pool.total)
    {
      OneOfSix(st, f);
    }
    PartitionSize(sets, st.pool.total);
    SizesOfSix(sets);
  }

  /** The frame is in exactly one of the sets if it is below the limit, and otherwise in none. */
  ghost predicate InOne(sets: seq<set<nat>>, f: nat, limit: nat) {
    && (f < limit <==> exists i :: 0 <= i < |sets| && f in sets[i])
    && forall i, j :: 0 <= i < j < |sets| ==> !(f in sets[i] && f in sets[j])
  }

  lemma OneOfSix(st: State, f: nat)
    requires Inv(st, false)
    ensures InOne([st.pool.free, MappedFrames(st), LingeringFrames(st), st.kernel, st.retired, StrandedFrames(st)],
                  f, st.pool.total)
  {
    var sets := [st.pool.free, MappedFrames(st), LingeringFrames(st), st.kernel, st.retired, StrandedFrames(st)];
    assert Fits(st, f);
    if f < st.pool.total {
      if f in st.pool.free {
        assert f in sets[0];
      } else if IsMapped(st, f) {
        assert f in sets[1];
      } else if IsLingering(st, f) {
        assert f in sets[2];
      } else if f in st.kernel {
        assert f in sets[3];
      } else if f in st.retired {
        assert f in sets[4];
      } else {
        assert f in sets[5];
      }
    }
  }

  function Sizes(sets: seq<set<nat>>): nat {
    if sets == [] then 0 else |sets[0]| + Sizes(sets[1..])
  }

  lemma SizesOfSix(s: seq<set<nat>>)
    requires |s| == 6
    ensures Sizes(s) == |s[0]| + |s[1]| + |s[2]| + |s[3]| + |s[4]| + |s[5]|
  {
    assert s == [s[0]] + ([s[1]] + ([s[2]] + ([s[3]] + ([s[4]] + ([s[5]] + [])))));
    SizesCons(s[5], []);
    SizesCons(s[4], [s[5]] + []);
    SizesCons(s[3], [s[4]] + ([s[5]] + []));
    SizesCons(s[2], [s[3]] + ([s[4]] + ([s[5]] + [])));
    SizesCons(s[1], [s[2]] + ([s[3]] + ([s[4]] + ([s[5]] + []))));
    SizesCons(s[0], [s[1]] + ([s[2]] + ([s[3]] + ([s[4]] + ([s[5]] + [])))));
  }

  lemma SizesCons(a: set<nat>, rest: seq<set<nat>>)
    ensures Sizes([a] + rest) == |a| + Sizes(rest)
  {
    assert ([a] + rest)[1..] == rest;
  }

  ghost function UnionOf(sets: seq<set<nat>>): (u: set<nat>)
    ensures forall f :: f in u <==> exists i :: 0 <= i < |sets| && f in sets[i]
  {
    if sets == [] then {}
    else
      var rest := UnionOf(sets[1..]);
      assert forall i :: 1 <= i < |sets| ==> sets[i] == sets[1..][i - 1];
      sets[0] + rest
  }

  lemma {:induction false} UnionSize(sets: seq<set<nat>>)
    requires forall i, j :: 0 <= i < j < |sets| ==> sets[i] !! sets[j]
    ensures |UnionOf(sets)| == Sizes(sets)
  {
    if sets != [] {
      var rest := sets[1..];
      assert forall i :: 0 <= i < |rest| ==> rest[i] == sets[i + 1];
      UnionSize(rest);
      assert sets[0] !! UnionOf(rest);
    }
  }

  lemma PartitionSize(sets: seq<set<nat>>, limit: nat)
    requires forall f: nat :: InOne(sets, f, limit)
    ensures Sizes(sets) == limit
  {
    forall i, j | 0 <= i < j < |sets|
      ensures sets[i] !! sets[j]
    {
      forall f: nat
        ensures !(f in sets[i] && f in sets[j])
      {
        assert InOne(sets, f, limit);
      }
    }
    UnionSize(sets);
    forall f: nat
      ensures f in UnionOf(sets) <==> f in Interval(0, limit)
    {
      assert InOne(sets, f, limit);
    }
    assert UnionOf(sets) == Interval(0, limit);
    IntervalSize(0, limit);
  }

  /** Counts are exact, frames have one role, and all used frames are accounted for. */
  ghost predicate Accounts(st: State) {
    && Inv(st, false)
    && st.pool.total - |st.pool.free|
       == |MappedFrames(st)| + |LingeringFrames(st)| + |st.kernel| + |st.retired| + |StrandedFrames(st)|
  }

  // ---------------------------------------------------------------- from boot

  /** Boot: no address space yet, every page that is not free belongs to the kernel. */
  ghost function Boot(pool: Pool): State {
    State(pool, map[], map[], map[], (f: nat) => ZERO_PAGE, Interval(0, pool.total) - pool.free, {}, map[], map[])
  }

  lemma BootInv(pool: Pool, guarded: bool)
    requires Wf(pool)
    ensures Inv(Boot(pool), guarded)
  {
    var st := Boot(pool);
    forall f: nat
      ensures Fits(st, f)
    {
      assert UsersOf(st, f) == Nobody();
    }
  }

  /** The books are right in every run from boot. */
  lemma RunKeepsAccounts(pool: Pool, steps: seq<Step>)
    requires Wf(pool) && Feasible(Boot(pool), steps)
    ensures Accounts(After(Boot(pool), steps))
  {
    BootInv(pool, false);
    InvThroughout(Boot(pool), steps, false);
    UsedFramesAddUp(After(Boot(pool), steps));
  }

  /** In every backed run from boot, shared frames are mapped read-only as well. */
  lemma RunKeepsGuard(pool: Pool, steps: seq<Step>)
    requires Wf(pool) && Feasible(Boot(pool), steps) && RunBacked(Boot(pool), steps)
    ensures Inv(After(Boot(pool), steps), true)
  {
    BootInv(pool, true);
    InvThroughout(Boot(pool), steps, true);
  }
}
