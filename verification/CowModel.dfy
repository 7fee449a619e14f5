/**
 Copy-on-write sharing of frames between address spaces, step by step in the order of the kernel.
 `Inv` says what the books mean.
 */
module CowModel {
  import opened Prelude
  import opened PagePool
  import opened RefCounts

  type Page = seq<int>

  const ZERO_PAGE: Page := []

  datatype Pte = Pte(frame: nat, writable: bool)

  type Table = map<int, Pte>

  /**
   `refs` is the reference-count table. `tracked` is what each space remembers of its frames: how
   often it was told that it uses them. `root` names the ancestor a space was forked from, `kernel`
   are frames held by the kernel itself and `retired` are frames that a write fault left behind.
   `surplus` is history, read by no step: by how much forks have counted frames too often.
   */
  datatype State = State(
    pool: Pool,
    refs: map<nat, nat>,
    spaces: map<int, Table>,
    tracked: map<int, map<nat, nat>>,
    content: nat -> Page,
    kernel: set<nat>,
    retired: set<nat>,
    root: map<int, int>,
    surplus: map<nat, nat>)

  /**
   `MapFresh` fills a page of anonymous memory or of a file. `Fork` lists pages of the parent, each as
   often as the ranges it goes through contain it. `Evict` takes a read-only page of a file away.
   `Drop` releases one frame of a space that goes away, `Reap` removes the space.
   */
  datatype Step =
    | Spawn(space: int)
    | MapFresh(space: int, va: int, data: Page, writable: bool)
    | Fork(parent: int, child: int, listed: map<int, nat>)
    | Write(space: int, va: int, data: Page)
    | WriteFault(space: int, va: int, lazy: bool)
    | Unmap(space: int, va: int)
    | Evict(space: int, va: int)
    | Drop(space: int, frame: nat)
    | Reap(space: int)
    | KernelTake(count: nat)
    | KernelGive(page: nat)

  // ---------------------------------------------------------------- page tables

  ghost function Frames(t: Table): (r: set<nat>)
    ensures forall va :: va in t ==> t[va].frame in r
    ensures forall f :: f in r ==> exists va :: va in t && t[va].frame == f
  {
    set va | va in t :: t[va].frame
  }

  ghost predicate Injective(t: Table) {
    forall a, b :: a in t && b in t && t[a].frame == t[b].frame ==> a == b
  }

  ghost function Sharers(spaces: map<int, Table>, f: nat): (r: set<int>)
    ensures forall s :: s in r <==> s in spaces && f in Frames(spaces[s])
  {
    set s | s in spaces && f in Frames(spaces[s])
  }

  /** The spaces that have the frame on their list. */
  ghost function Holders(tracked: map<int, map<nat, nat>>, f: nat): (r: set<int>)
    ensures forall s :: s in r <==> s in tracked && f in tracked[s]
  {
    set s | s in tracked && f in tracked[s]
  }

  /** Mark the entries for `vas` read-only. */
  function Demote(t: Table, vas: set<int>): (r: Table)
    ensures r.Keys == t.Keys
    ensures forall va :: va in t ==> r[va].frame == t[va].frame
  {
    map va | va in t :: if va in vas then t[va].(writable := false) else t[va]
  }

  function Restrict(t: Table, vas: set<int>): (r: Table)
    ensures forall va :: va in r <==> va in t && va in vas
    ensures forall va :: va in r ==> r[va] == t[va]
  {
    map va | va in t && va in vas :: t[va]
  }

  /** The table without the entry for frame f. */
  function Without(t: Table, f: nat): (r: Table)
    ensures forall va :: va in r <==> va in t && t[va].frame != f
    ensures forall va :: va in r ==> r[va] == t[va]
  {
    map va | va in t && t[va].frame != f :: t[va]
  }

  ghost function AddressOf(t: Table, f: nat): (va: int)
    requires f in Frames(t)
    ensures va in t && t[va].frame == f
  {
    var va :| va in t && t[va].frame == f;
    va
  }

  /** How often a fork counts each frame of the table. */
  ghost function Listings(t: Table, listed: map<int, nat>): (r: map<nat, nat>)
    ensures r.Keys == Frames(Restrict(t, listed.Keys))
  {
    var kid := Restrict(t, listed.Keys);
    map f | f in Frames(kid) :: listed[AddressOf(kid, f)]
  }

  /** The contents with frame f holding p. */
  function Put(c: nat -> Page, f: nat, p: Page): nat -> Page {
    (g: nat) => if g == f then p else c(g)
  }

  // ---------------------------------------------------------------- the steps

  /** A name for a new space: process ids are never used again, so no space descends from it. */
  ghost predicate Unused(st: State, s: int) {
    s !in st.spaces && s !in st.root.Values
  }

  ghost predicate Mapped(st: State, s: int, va: int) {
    s in st.spaces && s in st.tracked && va in st.spaces[s]
  }

  ghost predicate Enabled(st: State, step: Step) {
    match step
    case Spawn(s) => Unused(st, s)
    case MapFresh(s, va, _, _) => s in st.spaces && s in st.tracked && va !in st.spaces[s]
    case Fork(p, c, listed) =>
      && p in st.spaces && Unused(st, c) && listed.Keys <= st.spaces[p].Keys
      && (forall va :: va in listed ==> listed[va] >= 1)
      // no counter saturates
      && forall va :: va in listed ==> Owners(st.refs, st.spaces[p][va].frame) + listed[va] <= REF_LIMIT
    case Write(s, va, data) => Mapped(st, s, va) && st.spaces[s][va].writable
    case WriteFault(s, va, _) => Mapped(st, s, va) && !st.spaces[s][va].writable
    case Unmap(s, va) => Mapped(st, s, va)
    case Evict(s, va) => Mapped(st, s, va) && !st.spaces[s][va].writable
    case Drop(s, f) => s in st.spaces && s in st.tracked && f in st.tracked[s]
    case Reap(s) => s in st.spaces && s in st.tracked && st.spaces[s] == map[] && st.tracked[s] == map[]
    case KernelTake(count) => true
    case KernelGive(f) => f in st.kernel
  }

  /** Drop a reference; the last one returns the frame to the pool. */
  ghost function Release(st: State, f: nat): State {
    var (refs, last) := RefDec(st.refs, f);
    st.(refs := refs, pool := if last then FreeOne(st.pool, f).0 else st.pool)
  }

  /** Drop a reference and ignore whether it was the last one. */
  ghost function Abandon(st: State, f: nat): State {
    var (refs, last) := RefDec(st.refs, f);
    st.(refs := refs, retired := if last then st.retired + {f} else st.retired)
  }

  ghost function CountOf(st: State, s: int, f: nat): nat {
    if s in st.tracked then CountIn(st.tracked[s], f) else 0
  }

  ghost function Surplus(st: State, f: nat): nat {
    if f in st.surplus then st.surplus[f] else 0
  }

  /** A page goes; its frame is released if this was the last use the space knew of. */
  ghost function Remove(st: State, s: int, va: int): State
    requires Mapped(st, s, va)
  {
    var f := st.spaces[s][va].frame;
    var u := st.(spaces := st.spaces[s := st.spaces[s] - {va}],
                 tracked := st.tracked[s := Forget(st.tracked[s], f)]);
    if CountOf(st, s, f) == 1 then Release(u, f) else u
  }

  /**
   A write fault on a counted frame: copy, remap read-write, then forget and drop the old one. The
   reference of a use that the space still remembers was one too many.
   */
  ghost function CopyOnFault(st: State, s: int, va: int): State
    requires Mapped(st, s, va)
  {
    var f := st.spaces[s][va].frame;
    var (pool, page) := AllocOne(st.pool);
    match page
    case None => st
    case Some(n) =>
      var again := CountOf(st, s, f) >= 2 && Surplus(st, f) > 0;
      Abandon(st.(pool := pool,
                  spaces := st.spaces[s := st.spaces[s][va := Pte(n, true)]],
                  tracked := st.tracked[s := Forget(Track(st.tracked[s], n), f)],
                  content := Put(st.content, n, st.content(f)),
                  surplus := if again then st.surplus[f := Surplus(st, f) - 1] else st.surplus), f)
  }

  /** Make the page writable where it is. */
  ghost function Upgrade(st: State, s: int, va: int): State
    requires s in st.spaces && va in st.spaces[s]
  {
    st.(spaces := st.spaces[s := st.spaces[s][va := st.spaces[s][va].(writable := true)]])
  }

  /** What a fork counts beyond the child itself. */
  ghost function MoreSurplus(st: State, more: map<nat, nat>): map<nat, nat> {
    map f | f in st.surplus.Keys + more.Keys :: Surplus(st, f) + if f in more && more[f] > 0 then more[f] - 1 else 0
  }

  ghost function ForkNext(st: State, p: int, c: int, listed: map<int, nat>): State
    requires p in st.spaces
  {
    var low := Demote(st.spaces[p], listed.Keys);
    var more := Listings(low, listed);
    st.(refs := RefIncBy(st.refs, more),
        spaces := st.spaces[p := low][c := Restrict(low, listed.Keys)],
        tracked := st.tracked[c := more],
        root := if p in st.root then st.root[c := st.root[p]] else st.root,
        surplus := MoreSurplus(st, more))
  }

  ghost function Next(st: State, step: Step): State
    requires Enabled(st, step)
  {
    match step
    case Spawn(s) =>
      st.(spaces := st.spaces[s := map[]], tracked := st.tracked[s := map[]], root := st.root[s := s])
    case MapFresh(s, va, data, writable) =>
      var (pool, page) := AllocOne(st.pool);
      (match page
       case None => st
       case Some(f) =>
         st.(pool := pool,
             spaces := st.spaces[s := st.spaces[s][va := Pte(f, writable)]],
             tracked := st.tracked[s := Track(st.tracked[s], f)],
             content := Put(st.content, f, data)))
    case Fork(p, c, listed) => ForkNext(st, p, c, listed)
    case Write(s, va, data) =>
      st.(content := Put(st.content, st.spaces[s][va].frame, data))
    case WriteFault(s, va, lazy) =>
      if st.spaces[s][va].frame in st.refs && st.pool.free != {} then CopyOnFault(st, s, va)
      else if lazy then Upgrade(st, s, va)
      else st
    case Unmap(s, va) => Remove(st, s, va)
    case Evict(s, va) => Remove(st, s, va)
    case Drop(s, f) =>
      Release(st, f).(spaces := st.spaces[s := Without(st.spaces[s], f)],
                      tracked := st.tracked[s := st.tracked[s] - {f}])
    case Reap(s) => st.(spaces := st.spaces - {s}, tracked := st.tracked - {s}, root := st.root - {s})
    case KernelTake(count) =>
      var (pool, page) := AllocRun(st.pool, count);
      (match page
       case None => st
       case Some(start) => st.(pool := pool, kernel := st.kernel + Interval(start, start + count)))
    case KernelGive(f) =>
      Release(st, f).(kernel := st.kernel - {f})
  }

  // ---------------------------------------------------------------- the invariant

  /** The spaces that map a frame, that have it on their list, and that map it and count it twice. */
  datatype Users = Users(sharers: set<int>, holders: set<int>, twice: set<int>)

  ghost function Twice(st: State, f: nat): (r: set<int>)
    ensures forall s :: s in r <==> s in Sharers(st.spaces, f) && CountOf(st, s, f) >= 2
  {
    set s | s in Sharers(st.spaces, f) && CountOf(st, s, f) >= 2
  }

  ghost function UsersOf(st: State, f: nat): Users {
    Users(Sharers(st.spaces, f), Holders(st.tracked, f), Twice(st, f))
  }

  /**
   A frame of RAM is free, held by spaces, held by the kernel, retired, or stranded with a counter
   and no holder, and only one of these.
   */
  ghost predicate OneRole(st: State, f: nat, u: Users) {
    var held := u.holders != {};
    && (f in st.pool.free ==> !held && f !in st.kernel && f !in st.retired && f !in st.refs)
    && (held ==> f !in st.kernel && f !in st.retired)
    && (f in st.kernel ==> f !in st.retired && f !in st.refs)
    && (f in st.retired ==> f !in st.refs)
    && (f < st.pool.total <==> f in st.pool.free || held || f in st.kernel || f in st.retired || f in st.refs)
  }

  /** A counter is the number of holders and the surplus; no counter, at most one holder. */
  ghost predicate CountExact(st: State, f: nat, u: Users) {
    && (if f in st.refs then 1 <= st.refs[f] == |u.holders| + Surplus(st, f) <= REF_LIMIT
        else |u.holders| <= 1 && Surplus(st, f) == 0)
    && u.twice <= u.sharers <= u.holders && |u.twice| <= Surplus(st, f)
  }

  /** Two spaces that hold the frame descend from the same space. */
  ghost predicate OwnersRelated(st: State, holders: set<int>) {
    && holders <= st.root.Keys
    && forall s, t :: s in holders && t in holders ==> st.root[s] == st.root[t]
  }

  ghost predicate FrameOk(st: State, f: nat, u: Users) {
    OneRole(st, f, u) && CountExact(st, f, u) && OwnersRelated(st, u.holders)
  }

  /** A table maps no frame twice and, if `guarded`, maps counted frames read-only. */
  ghost predicate TableOk(refs: map<nat, nat>, t: Table, guarded: bool) {
    && Injective(t)
    && (guarded ==> forall va :: va in t && t[va].frame in refs ==> !t[va].writable)
  }

  ghost predicate TablesOk(refs: map<nat, nat>, spaces: map<int, Table>, guarded: bool) {
    forall s :: s in spaces ==> TableOk(refs, spaces[s], guarded)
  }

  ghost predicate ListOk(list: map<nat, nat>) {
    forall f :: f in list ==> list[f] >= 1
  }

  ghost predicate ListsOk(tracked: map<int, map<nat, nat>>) {
    forall s :: s in tracked ==> ListOk(tracked[s])
  }

  ghost predicate Fits(st: State, f: nat) {
    FrameOk(st, f, UsersOf(st, f))
  }

  ghost predicate AllFit(st: State) {
    forall f: nat :: Fits(st, f)
  }

  ghost predicate Inv(st: State, guarded: bool) {
    && Wf(st.pool) && st.root.Keys == st.spaces.Keys == st.tracked.Keys
    && TablesOk(st.refs, st.spaces, guarded) && ListsOk(st.tracked) && AllFit(st)
  }
}
