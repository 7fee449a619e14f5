/** In backed runs every process sees the memory it would see if fork copied all pages. */
module CowRefinement {
  import opened Prelude
  import opened PagePool
  import opened CowModel
  import opened CowSharing
  import opened CowRuns
  import opened CowRetirement

  type Memory = map<int, map<int, Page>>

  ghost function TableView(t: Table, content: nat -> Page): (m: map<int, Page>)
    ensures m.Keys == t.Keys
    ensures forall va :: va in t ==> m[va] == content(t[va].frame)
  {
    map va | va in t :: content(t[va].frame)
  }

  /** Each process's memory: the contents behind its page table. */
  ghost function Views(spaces: map<int, Table>, content: nat -> Page): (v: Memory)
    ensures v.Keys == spaces.Keys
    ensures forall s :: s in v ==> v[s] == TableView(spaces[s], content)
  {
    map s | s in spaces :: TableView(spaces[s], content)
  }

  ghost function View(st: State): Memory {
    Views(st.spaces, st.content)
  }

  /** What the memory manager decides: whether there is a page, and which pages a dropped frame was at. */
  datatype Answer = Answer(granted: bool, gone: set<int>)

  ghost function AnswerOf(st: State, step: Step): Answer {
    Answer(st.pool.free != {},
           if step.Drop? && step.space in st.spaces
           then set va | va in st.spaces[step.space] && st.spaces[step.space][va].frame == step.frame
           else {})
  }

  /** The reference semantics: every process owns its memory and fork copies pages eagerly. */
  ghost function EagerNext(v: Memory, step: Step, a: Answer): Memory
    requires step.MapFresh? || step.Write? || step.Unmap? || step.Evict? || step.Drop? ==> step.space in v
    requires step.Fork? ==> step.parent in v
  {
    match step
    case Spawn(s) => v[s := map[]]
    case MapFresh(s, va, data, _) => if a.granted then v[s := v[s][va := data]] else v
    case Fork(p, c, listed) => v[c := map va | va in v[p] && va in listed :: v[p][va]]
    case Write(s, va, data) => v[s := v[s][va := data]]
    case WriteFault(_, _, _) => v
    case Unmap(s, va) => v[s := v[s] - {va}]
    case Evict(s, va) => v[s := v[s] - {va}]
    case Drop(s, _) => v[s := v[s] - a.gone]
    case Reap(s) => v - {s}
    case KernelTake(_) => v
    case KernelGive(_) => v
  }

  /** Contents of frames a table does not map are invisible through it. */
  lemma UnseenPut(t: Table, content: nat -> Page, n: nat, p: Page)
    requires n !in Frames(t)
    ensures TableView(t, Put(content, n, p)) == TableView(t, content)
  {
  }

  lemma SeenPut(t: Table, content: nat -> Page, va: int, p: Page)
    requires Injective(t) && va in t
    ensures TableView(t, Put(content, t[va].frame, p)) == TableView(t, content)[va := p]
  {
    forall v | v in t
      ensures TableView(t, Put(content, t[va].frame, p))[v] == TableView(t, content)[va := p][v]
    {
      assert v != va ==> t[v].frame != t[va].frame;
    }
  }

  lemma EntryPut(t: Table, content: nat -> Page, va: int, p: Pte)
    ensures TableView(t[va := p], content) == TableView(t, content)[va := content(p.frame)]
  {
  }

  /** A step that replaces one table and one frame that no other table maps. */
  lemma ViewsPut(spaces: map<int, Table>, content: nat -> Page, s: int, t: Table, n: nat, p: Page)
    requires forall u :: u in spaces && u != s ==> n !in Frames(spaces[u])
    ensures Views(spaces[s := t], Put(content, n, p))
         == Views(spaces, content)[s := TableView(t, Put(content, n, p))]
  {
    forall u | u in spaces && u != s
      ensures TableView(spaces[u], Put(content, n, p)) == TableView(spaces[u], content)
    {
      UnseenPut(spaces[u], content, n, p);
    }
  }

  lemma ViewsTable(spaces: map<int, Table>, content: nat -> Page, s: int, t: Table)
    ensures Views(spaces[s := t], content) == Views(spaces, content)[s := TableView(t, content)]
  {
  }

  /** A writable page has one owner, so a write reaches no other process. */
  lemma WriterIsAlone(st: State, s: int, va: int)
    requires Inv(st, true) && Mapped(st, s, va) && st.spaces[s][va].writable
    ensures forall u :: u in st.spaces && u != s ==> st.spaces[s][va].frame !in Frames(st.spaces[u])
    ensures Injective(st.spaces[s])
  {
    var f := st.spaces[s][va].frame;
    assert TableOk(st.refs, st.spaces[s], true) && Fits(st, f);
    forall u | u in st.spaces && u != s
      ensures f !in Frames(st.spaces[u])
    {
      UncountedIsPrivate(st, s, u, f);
    }
  }

  lemma WriteIsPrivate(st: State, s: int, va: int, data: Page)
    requires Inv(st, true) && Enabled(st, Write(s, va, data))
    ensures View(Next(st, Write(s, va, data))) == View(st)[s := View(st)[s][va := data]]
  {
    var t := st.spaces[s];
    WriterIsAlone(st, s, va);
    ViewsPut(st.spaces, st.content, s, t, t[va].frame, data);
    SeenPut(t, st.content, va, data);
    assert st.spaces[s := t] == st.spaces;
  }

  lemma FreshShows(st: State, step: Step)
    requires Inv(st, true) && step.MapFresh? && Enabled(st, step)
    ensures View(Next(st, step)) == EagerNext(View(st), step, AnswerOf(st, step))
  {
    if st.pool.free != {} {
      var n, s, va := AllocOne(st.pool).1.value, step.space, step.va;
      var t := st.spaces[s];
      assert Fits(st, n);
      FreeIsUnshared(st, n);
      ViewsPut(st.spaces, st.content, s, t[va := Pte(n, step.writable)], n, step.data);
      EntryPut(t, Put(st.content, n, step.data), va, Pte(n, step.writable));
      UnseenPut(t, st.content, n, step.data);
    }
  }

  lemma CopyContent(st: State, s: int, va: int, n: nat)
    requires Mapped(st, s, va) && AllocOne(st.pool).1 == Some(n)
    ensures var st' := CopyOnFault(st, s, va);
            && st'.spaces == st.spaces[s := st.spaces[s][va := Pte(n, true)]]
            && st'.content == Put(st.content, n, st.content(st.spaces[s][va].frame))
  {
  }

  /** A frame that nobody maps takes the place and the contents of another. */
  lemma CopiedView(spaces: map<int, Table>, content: nat -> Page, s: int, va: int, n: nat)
    requires s in spaces && va in spaces[s] && forall u :: u in spaces ==> n !in Frames(spaces[u])
    ensures Views(spaces[s := spaces[s][va := Pte(n, true)]], Put(content, n, content(spaces[s][va].frame)))
         == Views(spaces, content)
  {
    var t, page := spaces[s], content(spaces[s][va].frame);
    ViewsPut(spaces, content, s, t[va := Pte(n, true)], n, page);
    EntryPut(t, Put(content, n, page), va, Pte(n, true));
    UnseenPut(t, content, n, page);
    assert TableView(t, content)[va := page] == TableView(t, content);
    assert Views(spaces, content)[s := TableView(t, content)] == Views(spaces, content);
  }

  lemma CopyIsInvisible(st: State, s: int, va: int)
    requires Inv(st, true) && Mapped(st, s, va)
    ensures View(CopyOnFault(st, s, va)) == View(st)
  {
    if st.pool.free != {} {
      var n := AllocOne(st.pool).1.value;
      assert Fits(st, n);
      FreeIsUnshared(st, n);
      CopyContent(st, s, va, n);
      CopiedView(st.spaces, st.content, s, va, n);
    }
  }

  lemma UpgradeIsInvisible(st: State, s: int, va: int)
    requires s in st.spaces && va in st.spaces[s]
    ensures View(Upgrade(st, s, va)) == View(st)
  {
    var t := st.spaces[s];
    var p := t[va].(writable := true);
    ViewsTable(st.spaces, st.content, s, t[va := p]);
    EntryPut(t, st.content, va, p);
    assert TableView(t[va := p], st.content) == TableView(t, st.content);
    assert View(st)[s := TableView(t, st.content)] == View(st);
  }

  lemma FaultIsInvisible(st: State, s: int, va: int, lazy: bool)
    requires Inv(st, true) && Enabled(st, WriteFault(s, va, lazy))
    ensures View(Next(st, WriteFault(s, va, lazy))) == View(st)
  {
    CopyIsInvisible(st, s, va);
    UpgradeIsInvisible(st, s, va);
  }

  lemma DemotedView(t: Table, content: nat -> Page, vas: set<int>)
    ensures TableView(Demote(t, vas), content) == TableView(t, content)
    ensures TableView(Restrict(Demote(t, vas), vas), content)
         == map va | va in TableView(t, content) && va in vas :: TableView(t, content)[va]
  {
  }

  lemma ForkCopiesView(st: State, p: int, c: int, listed: map<int, nat>)
    requires Enabled(st, Fork(p, c, listed))
    ensures View(Next(st, Fork(p, c, listed)))
         == View(st)[c := map va | va in View(st)[p] && va in listed :: View(st)[p][va]]
  {
    var t := st.spaces[p];
    var low := Demote(t, listed.Keys);
    ViewsTable(st.spaces, st.content, p, low);
    ViewsTable(st.spaces[p := low], st.content, c, Restrict(low, listed.Keys));
    DemotedView(t, st.content, listed.Keys);
    assert View(st)[p := TableView(t, st.content)] == View(st);
  }

  lemma RemoveView(st: State, s: int, va: int)
    requires Mapped(st, s, va)
    ensures View(Remove(st, s, va)) == View(st)[s := View(st)[s] - {va}]
  {
    var t := st.spaces[s];
    RemoveReplaces(st, s, va);
    assert Remove(st, s, va).content == st.content;
    ViewsTable(st.spaces, st.content, s, t - {va});
    assert TableView(t - {va}, st.content) == TableView(t, st.content) - {va};
  }

  lemma DropView(st: State, s: int, f: nat)
    requires Enabled(st, Drop(s, f))
    ensures View(Next(st, Drop(s, f))) == View(st)[s := View(st)[s] - AnswerOf(st, Drop(s, f)).gone]
  {
    var t := st.spaces[s];
    ViewsTable(st.spaces, st.content, s, Without(t, f));
    assert TableView(Without(t, f), st.content) == TableView(t, st.content) - AnswerOf(st, Drop(s, f)).gone;
  }

  lemma SpawnView(st: State, s: int)
    requires Enabled(st, Spawn(s))
    ensures View(Next(st, Spawn(s))) == View(st)[s := map[]]
  {
  }

  lemma ReapView(st: State, s: int)
    requires Enabled(st, Reap(s))
    ensures View(Next(st, Reap(s))) == View(st) - {s}
  {
  }

  /** One kernel step is the same step of the eager-copy semantics. */
  lemma StepRefinesEagerCopy(st: State, step: Step)
    requires Inv(st, true) && Enabled(st, step)
    ensures View(Next(st, step)) == EagerNext(View(st), step, AnswerOf(st, step))
  {
    match step
    case Spawn(s) => SpawnView(st, s);
    case MapFresh(_, _, _, _) => FreshShows(st, step);
    case Fork(p, c, listed) => ForkCopiesView(st, p, c, listed);
    case Write(s, va, data) => WriteIsPrivate(st, s, va, data);
    case WriteFault(s, va, lazy) => FaultIsInvisible(st, s, va, lazy);
    case Unmap(s, va) => RemoveView(st, s, va);
    case Evict(s, va) => RemoveView(st, s, va);
    case Drop(s, f) => DropView(st, s, f);
    case Reap(s) => ReapView(st, s);
    case KernelTake(_) =>
    case KernelGive(_) =>
  }

  /** What the memory manager decides in the course of a run. */
  ghost function Answers(st: State, steps: seq<Step>): (g: seq<Answer>)
    requires Feasible(st, steps)
    ensures |g| == |steps|
    decreases |steps|
  {
    if steps == [] then [] else [AnswerOf(st, steps[0])] + Answers(Next(st, steps[0]), steps[1..])
  }

  /** The memory `w` results from `v` by the steps of the eager-copy semantics. */
  ghost predicate EagerRun(v: Memory, steps: seq<Step>, answers: seq<Answer>, w: Memory)
    requires |answers| == |steps|
    decreases |steps|
  {
    if steps == [] then w == v
    else
      var s := steps[0];
      && (s.MapFresh? || s.Write? || s.Unmap? || s.Evict? || s.Drop? ==> s.space in v)
      && (s.Fork? ==> s.parent in v)
      && EagerRun(EagerNext(v, s, answers[0]), steps[1..], answers[1..], w)
  }

  lemma {:induction false} RunRefinesEagerCopy(st: State, steps: seq<Step>)
    requires Inv(st, true) && Feasible(st, steps) && RunBacked(st, steps)
    ensures EagerRun(View(st), steps, Answers(st, steps), View(After(st, steps)))
    decreases |steps|
  {
    if steps != [] {
      StepKeepsInv(st, steps[0], true);
      StepRefinesEagerCopy(st, steps[0]);
      RunRefinesEagerCopy(Next(st, steps[0]), steps[1..]);
      assert Answers(st, steps)[1..] == Answers(Next(st, steps[0]), steps[1..]);
    }
  }

  /** In every backed run from boot, copy-on-write fork is indistinguishable from copying at fork. */
  lemma CowRefinesEagerCopy(pool: Pool, steps: seq<Step>)
    requires Wf(pool) && Feasible(Boot(pool), steps) && RunBacked(Boot(pool), steps)
    ensures EagerRun(map[], steps, Answers(Boot(pool), steps), View(After(Boot(pool), steps)))
  {
    BootInv(pool, true);
    RunRefinesEagerCopy(Boot(pool), steps);
    assert View(Boot(pool)) == map[];
  }

  // ---------------------------------------------------------------- faults without a frame

  /**
   Without backing it is not: with no free frame, a fault in a lazy region makes the shared page
   writable, and what one process then writes the other one reads.
   */
  lemma UnbackedWriteShows(st: State, p: int, c: int, va: int, f: nat, data: Page)
    requires SharedBy(st, p, c, va, f) && c in st.tracked && f in st.refs && st.pool.free == {}
    ensures Enabled(st, WriteFault(c, va, true)) && !Backed(st, WriteFault(c, va, true))
    ensures var faulted := Next(st, WriteFault(c, va, true));
            && Enabled(faulted, Write(c, va, data))
            && View(Next(faulted, Write(c, va, data)))[p][va] == data
  {
  }

  /** Process 1 maps the only frame there is and forks; the child's write in a lazy region follows. */
  function UnbackedRun(va: int, data: Page): seq<Step> {
    FirstPage(va) + [ForkPage(1, 2, va, 1)] + [WriteFault(2, va, true)] + [Write(2, va, data)]
  }

  /** A run from boot with one frame of memory in which the parent reads what the child writes. */
  lemma UnbackedRunShows(va: int, data: Page)
    ensures var boot := Boot(Pool(1, {0}, 0));
            && Feasible(boot, UnbackedRun(va, data))
            && 1 in View(After(boot, UnbackedRun(va, data))) && va in View(After(boot, UnbackedRun(va, data)))[1]
            && View(After(boot, UnbackedRun(va, data)))[1][va] == data
  {
    var boot := Boot(Pool(1, {0}, 0));
    FirstPageMapped(va);
    var st := After(boot, FirstPage(va));
    ForkCounts(st, 1, 2, va, 0, 1);
    RunSnoc(boot, FirstPage(va), ForkPage(1, 2, va, 1));
    var forked := Next(st, ForkPage(1, 2, va, 1));
    UnbackedWriteShows(forked, 1, 2, va, 0, data);
    RunSnoc(boot, FirstPage(va) + [ForkPage(1, 2, va, 1)], WriteFault(2, va, true));
    RunSnoc(boot, FirstPage(va) + [ForkPage(1, 2, va, 1)] + [WriteFault(2, va, true)], Write(2, va, data));
  }

  // ---------------------------------------------------------------- eviction

  /** Evict a read-only page and read it back from the file. */
  ghost function Refetched(st: State, s: int, va: int, image: Page, writable: bool): State
    requires Enabled(st, Evict(s, va)) && Enabled(Next(st, Evict(s, va)), MapFresh(s, va, image, writable))
  {
    Next(Next(st, Evict(s, va)), MapFresh(s, va, image, writable))
  }

  lemma RefetchEnabled(st: State, s: int, va: int, image: Page, writable: bool)
    requires Enabled(st, Evict(s, va))
    ensures Enabled(Remove(st, s, va), MapFresh(s, va, image, writable))
  {
    RemoveReplaces(st, s, va);
  }

  lemma ReadBack(out: State, v: Memory, s: int, va: int, image: Page, writable: bool)
    requires Inv(out, true) && Enabled(out, MapFresh(s, va, image, writable)) && out.pool.free != {}
    requires s in v && View(out) == v[s := v[s] - {va}]
    ensures View(Next(out, MapFresh(s, va, image, writable))) == v[s := v[s][va := image]]
  {
    FreshShows(out, MapFresh(s, va, image, writable));
    assert (v[s] - {va})[va := image] == v[s][va := image];
  }

  /** What everybody sees once an evicted page has been read back. */
  lemma RefetchShows(st: State, s: int, va: int, image: Page, writable: bool)
    requires Inv(st, true) && Enabled(st, Evict(s, va)) && Next(st, Evict(s, va)).pool.free != {}
    ensures Enabled(Next(st, Evict(s, va)), MapFresh(s, va, image, writable))
    ensures View(Refetched(st, s, va, image, writable)) == View(st)[s := View(st)[s][va := image]]
  {
    RefetchEnabled(st, s, va, image, writable);
    RemoveKeeps(st, s, va, true);
    RemoveView(st, s, va);
    ReadBack(Remove(st, s, va), View(st), s, va, image, writable);
  }

  lemma PutBackSame(v: Memory, s: int, va: int, image: Page)
    requires s in v && va in v[s]
    ensures v[s := v[s][va := image]] == v <==> v[s][va] == image
  {
    if v[s][va] == image {
      assert v[s][va := image] == v[s];
    } else {
      assert v[s := v[s][va := image]][s][va] == image;
    }
  }

  /** Eviction is invisible exactly if the page still holds what the file does. */
  lemma EvictionKeepsViewExactly(st: State, s: int, va: int, image: Page, writable: bool)
    requires Inv(st, true) && Enabled(st, Evict(s, va)) && Next(st, Evict(s, va)).pool.free != {}
    ensures Enabled(Next(st, Evict(s, va)), MapFresh(s, va, image, writable))
    ensures View(Refetched(st, s, va, image, writable)) == View(st) <==> st.content(st.spaces[s][va].frame) == image
  {
    RefetchShows(st, s, va, image, writable);
    PutBackSame(View(st), s, va, image);
  }

  /**
   Fork makes pages read-only that are not clean: whatever a process has written to a page of a file
   is gone once the page is forked, evicted and read back.
   */
  lemma EvictionLosesWrites(st: State, p: int, c: int, va: int, image: Page, writable: bool)
    requires Inv(st, true) && Mapped(st, p, va) && st.spaces[p][va].writable && Unused(st, c)
    requires st.content(st.spaces[p][va].frame) != image && st.pool.free != {}
    ensures Enabled(st, ForkPage(p, c, va, 1)) && Enabled(Next(st, ForkPage(p, c, va, 1)), Evict(p, va))
    ensures Enabled(Next(Next(st, ForkPage(p, c, va, 1)), Evict(p, va)), MapFresh(p, va, image, writable))
    ensures var end := Refetched(Next(st, ForkPage(p, c, va, 1)), p, va, image, writable);
            View(st)[p][va] != image && p in View(end) && va in View(end)[p] && View(end)[p][va] == image
  {
    var f := st.spaces[p][va].frame;
    WritableIsPrivate(st, p, va);
    ForkCounts(st, p, c, va, f, 1);
    var forked := Next(st, ForkPage(p, c, va, 1));
    StepKeepsInv(st, ForkPage(p, c, va, 1), true);
    RemovePoolGrows(forked, p, va);
    RefetchShows(forked, p, va, image, writable);
  }

  lemma RemovePoolGrows(st: State, s: int, va: int)
    requires Mapped(st, s, va)
    ensures st.pool.free <= Remove(st, s, va).pool.free
  {
  }
}
