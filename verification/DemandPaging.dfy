/** File-backed page faults, while other processors take, return and map frames. */
module DemandPaging {
  import opened Prelude
  import opened ByteMemory
  import opened PagePool
  import opened RefCounts
  import opened FrameManager

  const READAHEAD_PAGES: nat := 256

  // ---------------------------------------------------------------- the contents of a page

  /** A file extent of `filesz` bytes from `fileOffset`, loaded at `va`. */
  datatype Segment = Segment(fileOffset: nat, filesz: nat, va: int)

  /** The byte at an address of the segment: from the file as far as it goes, zero elsewhere. */
  function ByteAt(file: seq<Byte>, seg: Segment, a: int): Byte {
    var at := seg.fileOffset + (a - seg.va);
    if seg.va <= a < seg.va + seg.filesz && at < |file| then file[at] else 0
  }

  function ZeroBytes(n: nat): (z: seq<Byte>)
    ensures |z| == n && forall i :: 0 <= i < n ==> z[i] == 0
  {
    seq(n, _ => 0)
  }

  /** A zeroed page at `va` with the part of the file read into it that belongs there. */
  function FillPage(file: seq<Byte>, seg: Segment, va: int): (page: seq<Byte>)
    ensures |page| == PAGE_SIZE
  {
    var start := Max(va, seg.va);
    var end := Min(va + PAGE_SIZE, seg.va + seg.filesz);
    if start < end then
      var off := Min(seg.fileOffset + (start - seg.va), |file|);
      var got := Min(end - start, |file| - off);
      ZeroBytes(start - va) + file[off..off + got] + ZeroBytes(va + PAGE_SIZE - (start + got))
    else ZeroBytes(PAGE_SIZE)
  }

  /** A page is the same function of its addresses whichever path fills it. */
  lemma PageIsImage(file: seq<Byte>, seg: Segment, va: int, i: nat)
    requires i < PAGE_SIZE
    ensures FillPage(file, seg, va)[i] == ByteAt(file, seg, va + i)
  {
    var start := Max(va, seg.va);
    var end := Min(va + PAGE_SIZE, seg.va + seg.filesz);
    if start < end {
      var off := Min(seg.fileOffset + (start - seg.va), |file|);
      var got := Min(end - start, |file| - off);
      var data := file[off..off + got];
      if start - va <= i < start - va + got {
        assert FillPage(file, seg, va)[i] == data[i - (start - va)];
      }
    }
  }

  // ---------------------------------------------------------------- a fault and the others

  /** The pages [first, end) of a region that shows a segment of a file. */
  datatype Job = Job(first: int, end: int, file: seq<Byte>, seg: Segment)

  /** The window of a fault at `pageVa`: at most 256 pages, and no further than the region goes. */
  function Window(pageVa: int, regionEnd: int, file: seq<Byte>, seg: Segment): Job {
    Job(pageVa, Min(pageVa + READAHEAD_PAGES * PAGE_SIZE, regionEnd), file, seg)
  }

  /**
   The fault takes frames: the free pages at the look before and at the draw, by how many pages the
   others made them fewer in between, and the frames.
   */
  datatype Draw = Draw(seen: nat, found: nat, taken: int, frames: seq<nat>)

  /**
   What happened so far: the mappings the fault made, those others made meanwhile, the draws, the
   frames given back, and the free pages at the last look of a refused allocation; the addresses of
   evicted pages, their frames, and those of the frames that went back to the pool.
   */
  datatype Log = Log(placed: map<int, nat>, theirs: map<int, nat>, draws: seq<Draw>, returned: seq<nat>,
                     refusedAt: Option<nat>, gone: set<int>, dropped: set<nat>, freed: set<nat>)

  const NEW_LOG: Log := Log(map[], map[], [], [], None, {}, {}, {})

  /**
   The memory manager, the frames other processors hold and may map or return, the address space
   with the contents of frames, its list of frames in use and its read-only pages of files, and how
   many turns the others have had.
   */
  datatype Fault = Fault(books: Books, foreign: set<nat>, table: map<int, nat>, contents: map<nat, seq<Byte>>,
                         owned: map<nat, nat>, readOnly: set<int>, clock: nat, log: Log)

  function One(b: bool): nat {
    if b then 1 else 0
  }

  ghost function FreeOf(b: Books): set<nat> {
    b.ledger.pool.free
  }

  ghost function FreeNow(s: Fault): nat {
    |FreeOf(s.books)|
  }

  /** One action of another processor: take a run of frames, return a frame, map a page. */
  datatype Act = Take(count: nat) | Give(page: nat) | Map(va: int, page: nat)

  /**
   A turn of the others. `reclaimed` tells whether kernel-heap spans were among what came back, and
   `sweep` are the pages that an eviction sweep looks at.
   */
  datatype Turn = Turn(acts: seq<Act>, reclaimed: bool, sweep: seq<int>)

  function TurnAt(turns: seq<Turn>, i: nat): Turn {
    if i < |turns| then turns[i] else Turn([], false, [])
  }

  ghost function Do(s: Fault, a: Act): Fault {
    match a
    case Take(count) =>
      var got := AllocRun(s.books.ledger.pool, count).1;
      s.(books := s.books.(ledger := Apply(s.books.ledger, TakeRun(count))),
         foreign := if got.Some? then s.foreign + Interval(got.value, got.value + count) else s.foreign)
    case Give(page) =>
      if page in s.foreign then s.(books := ReleasePage(s.books, page), foreign := s.foreign - {page}) else s
    case Map(va, page) =>
      if page in s.foreign && va !in s.table then
        s.(table := s.table[va := page], foreign := s.foreign - {page}, owned := Track(s.owned, page),
           log := s.log.(theirs := s.log.theirs[va := page]))
      else s
  }

  ghost function DoAll(s: Fault, acts: seq<Act>): Fault
    decreases |acts|
  {
    if acts == [] then s else DoAll(Do(s, acts[0]), acts[1..])
  }

  /** The others have their next turn. */
  ghost function Race(s: Fault, turns: seq<Turn>): Fault {
    DoAll(s.(clock := s.clock + 1), TurnAt(turns, s.clock).acts)
  }

  /** By how many pages an action makes the free pages fewer. */
  ghost function Net(s: Fault, a: Act): int {
    match a
    case Take(count) => if AllocRun(s.books.ledger.pool, count).1.Some? then count else 0
    case Give(page) => if page in s.foreign then -1 else 0
    case Map(_, _) => 0
  }

  ghost function NetAll(s: Fault, acts: seq<Act>): int
    decreases |acts|
  {
    if acts == [] then 0 else Net(s, acts[0]) + NetAll(Do(s, acts[0]), acts[1..])
  }

  /** By how many pages the next turn makes the free pages fewer. */
  ghost function RaceTakes(s: Fault, turns: seq<Turn>): int {
    NetAll(s.(clock := s.clock + 1), TurnAt(turns, s.clock).acts)
  }

  // ---------------------------------------------------------------- eviction

  /** A read-only page of a file is unmapped; its frame goes back if this was its last use. */
  ghost function Evict(s: Fault, va: int): Fault {
    if va !in s.table || va !in s.readOnly then s
    else
      var f := s.table[va];
      var books := if CountIn(s.owned, f) == 1 then ReleasePage(s.books, f) else s.books;
      var back := f in FreeOf(books) && f !in FreeOf(s.books);
      s.(books := books, table := s.table - {va}, owned := Forget(s.owned, f),
         log := s.log.(theirs := s.log.theirs - {va}, gone := s.log.gone + {va}, dropped := s.log.dropped + {f},
                       freed := if back then s.log.freed + {f} else s.log.freed))
  }

  /** The sweep over pages of the space, with turns of the others in between. */
  ghost function Sweep(s: Fault, vas: seq<int>, turns: seq<Turn>): Fault
    decreases |vas|
  {
    if vas == [] then s else Sweep(Race(Evict(s, vas[0]), turns), vas[1..], turns)
  }

  ghost predicate SweepLeads(s: Fault, vas: seq<int>, turns: seq<Turn>, result: Fault) {
    Sweep(s, vas, turns) == result
  }

  lemma SweepStep(s: Fault, vas: seq<int>, turns: seq<Turn>, result: Fault, t: Fault)
    requires vas != [] && SweepLeads(s, vas, turns, result) && t == Race(Evict(s, vas[0]), turns)
    ensures SweepLeads(t, vas[1..], turns, result)
  {
  }

  // ---------------------------------------------------------------- drawing frames

  ghost predicate Starved(s: Fault) {
    UserAllocWouldStarve(FreeNow(s))
  }

  ghost function Refuse(s: Fault): Fault {
    s.(log := s.log.(refusedAt := Some(FreeNow(s))))
  }

  ghost function TakeFrame(s: Fault, seen: nat, taken: int): (Fault, Option<nat>) {
    var got := AllocOne(s.books.ledger.pool).1;
    if got.None? then (Refuse(s), None)
    else (s.(books := s.books.(ledger := Apply(s.books.ledger, TakeOne)),
             log := s.log.(draws := s.log.draws + [Draw(seen, FreeNow(s), taken, [got.value])])), got)
  }

  /** A frame; when there is none, one more try if heap spans could be reclaimed. */
  ghost function AllocFrame(s: Fault, seen: nat, taken: int, turns: seq<Turn>): (Fault, Option<nat>) {
    var (t, got) := TakeFrame(s, seen, taken);
    if got.Some? then (t, got)
    else
      var u := Race(t, turns);
      if TurnAt(turns, t.clock).reclaimed then TakeFrame(u, seen, taken + RaceTakes(t, turns)) else (u, None)
  }

  /**
   While free pages are down to the reserve, two attempts to get some back: heap spans are reclaimed,
   then read-only pages of the space itself are evicted.
   */
  ghost function Relieve(s: Fault, turns: seq<Turn>): Fault {
    if !Starved(s) then s
    else
      var t := Race(s, turns);
      if !Starved(t) then t else Sweep(Race(t, turns), TurnAt(turns, t.clock).sweep, turns)
  }

  /** The user allocator: it looks at the free count first, and draws in a lock of its own. */
  ghost function AllocUser(s: Fault, turns: seq<Turn>): (Fault, Option<nat>) {
    var t := Relieve(s, turns);
    if Starved(t) then (Refuse(t), None)
    else AllocFrame(Race(t, turns), FreeNow(t), RaceTakes(t, turns), turns)
  }

  ghost function TakeSingly(s: Fault, pool: seq<nat>, n: nat, turns: seq<Turn>): (r: (Fault, seq<nat>))
    ensures |pool| <= |r.1| <= |pool| + n
    decreases n
  {
    if n == 0 then (s, pool)
    else
      var (t, got) := AllocUser(s, turns);
      if got.None? then (t, pool) else TakeSingly(t, pool + [got.value], n - 1, turns)
  }

  /** From `start`, taking k frames one by one has led to s with the frames of the pool. */
  ghost predicate SinglyLeads(start: Fault, s: Fault, pool: seq<nat>, k: nat, turns: seq<Turn>) {
    forall n: nat :: n >= k ==> TakeSingly(start, [], n, turns) == TakeSingly(s, pool, n - k, turns)
  }

  lemma SinglyStart(s: Fault, turns: seq<Turn>)
    ensures SinglyLeads(s, s, [], 0, turns)
  {
  }

  lemma SinglyMore(start: Fault, s: Fault, pool: seq<nat>, k: nat, turns: seq<Turn>, t: Fault, f: nat)
    requires SinglyLeads(start, s, pool, k, turns) && (t, Some(f)) == AllocUser(s, turns)
    ensures SinglyLeads(start, t, pool + [f], k + 1, turns)
  {
    forall n: nat | n >= k + 1
      ensures TakeSingly(start, [], n, turns) == TakeSingly(t, pool + [f], n - (k + 1), turns)
    {
      assert TakeSingly(s, pool, n - k, turns) == TakeSingly(t, pool + [f], n - k - 1, turns);
    }
  }

  lemma SinglyStops(start: Fault, s: Fault, pool: seq<nat>, k: nat, turns: seq<Turn>, t: Fault, n: nat)
    requires SinglyLeads(start, s, pool, k, turns) && (t, None) == AllocUser(s, turns) && n > k
    ensures TakeSingly(start, [], n, turns) == (t, pool)
  {
  }

  lemma SinglyEnds(start: Fault, s: Fault, pool: seq<nat>, n: nat, turns: seq<Turn>)
    requires SinglyLeads(start, s, pool, n, turns)
    ensures TakeSingly(start, [], n, turns) == (s, pool)
  {
  }

  ghost function TakeFrames(s: Fault, seen: nat, taken: int, n: nat): (Fault, Option<seq<nat>>) {
    var got := AllocBatch(s.books.ledger.pool, n).1;
    if got.None? then (s, None)
    else (s.(books := s.books.(ledger := Apply(s.books.ledger, TakeBatch(n))),
             log := s.log.(draws := s.log.draws + [Draw(seen, FreeNow(s), taken, got.value)])), got)
  }

  /** A batch in one lock, or, if there are not that many frames, single ones. */
  ghost function TakePool(s: Fault, seen: nat, taken: int, n: nat, turns: seq<Turn>): (Fault, seq<nat>) {
    var (t, got) := TakeFrames(s, seen, taken, n);
    if got.Some? then (t, got.value) else TakeSingly(t, [], n, turns)
  }

  /** How many pages of a window are unmapped when they are looked at, on top of n. */
  ghost function Count(s: Fault, va: int, end: int, n: nat, turns: seq<Turn>): (Fault, nat)
    decreases end - va
  {
    if va >= end then (s, n)
    else
      var t := Race(s, turns);
      Count(t, va + PAGE_SIZE, end, n + One(va !in t.table), turns)
  }

  /** Counting on from here ends in `result`; likewise for the other loops. */
  ghost predicate CountLeads(s: Fault, va: int, end: int, n: nat, turns: seq<Turn>, result: (Fault, nat)) {
    Count(s, va, end, n, turns) == result
  }

  lemma CountStep(s: Fault, va: int, end: int, n: nat, turns: seq<Turn>, result: (Fault, nat), t: Fault)
    requires va < end && CountLeads(s, va, end, n, turns, result) && t == Race(s, turns)
    ensures CountLeads(t, va + PAGE_SIZE, end, n + One(va !in t.table), turns, result)
  {
  }

  /** The frames for n pages; others run between the look at the free count and the draw. */
  ghost function DrawFor(s: Fault, n: nat, turns: seq<Turn>): (Fault, seq<nat>) {
    var wanted := Min(n, UserReadaheadBudget(FreeNow(s)));
    var t := Race(s, turns);
    if wanted == 0 then (t, []) else TakePool(t, FreeNow(s), RaceTakes(s, turns), wanted, turns)
  }

  ghost function Supply(s: Fault, job: Job, turns: seq<Turn>): (Fault, seq<nat>) {
    var (t, n) := Count(s, job.first, job.end, 0, turns);
    DrawFor(t, n, turns)
  }

  // ---------------------------------------------------------------- mapping

  ghost function Return(s: Fault, f: nat): Fault {
    s.(books := ReleasePage(s.books, f), log := s.log.(returned := s.log.returned + [f]))
  }

  ghost function Fill(s: Fault, cur: int, f: nat, job: Job): Fault {
    s.(contents := s.contents[f := FillPage(job.file, job.seg, cur)])
  }

  ghost function Place(s: Fault, cur: int, f: nat): Fault {
    s.(table := s.table[cur := f], owned := Track(s.owned, f), log := s.log.(placed := s.log.placed[cur := f]))
  }

  /** The page at `cur` gets the frame f, unless it is mapped; then the frame goes back. */
  ghost function Install(s: Fault, cur: int, f: nat, job: Job): Fault {
    var t := Fill(s, cur, f, job);
    if cur in s.table then Return(t, f) else Place(t, cur, f)
  }

  /** The loop over the window: the fault, how much of the pool is used, whether something was mapped. */
  datatype Loop = Loop(s: Fault, idx: nat, anyMapped: bool)

  /** One page of the window; the second result tells that the pool ran out before an unmapped page. */
  ghost function Visit(l: Loop, pool: seq<nat>, cur: int, job: Job, turns: seq<Turn>): (Loop, bool) {
    var t := Race(l.s, turns);
    if cur in t.table then (l.(s := t), false)
    else if l.idx >= |pool| then (l.(s := t), true)
    else
      var u := Race(t, turns);
      var hit := cur !in u.table || cur == job.first;
      (Loop(Install(u, cur, pool[l.idx], job), l.idx + 1, l.anyMapped || hit), false)
  }

  /** The window from page `cur` on. */
  ghost function Walk(l: Loop, pool: seq<nat>, cur: int, job: Job, turns: seq<Turn>): Loop
    decreases job.end - cur
  {
    if cur >= job.end then l
    else
      var (t, stop) := Visit(l, pool, cur, job, turns);
      if stop then t else Walk(t, pool, cur + PAGE_SIZE, job, turns)
  }

  ghost predicate WalkLeads(l: Loop, pool: seq<nat>, cur: int, job: Job, turns: seq<Turn>, result: Loop) {
    Walk(l, pool, cur, job, turns) == result
  }

  lemma WalkStep(l: Loop, pool: seq<nat>, cur: int, job: Job, turns: seq<Turn>, result: Loop, t: Loop, stop: bool)
    requires cur < job.end && WalkLeads(l, pool, cur, job, turns, result)
    requires (t, stop) == Visit(l, pool, cur, job, turns)
    ensures stop ==> t == result
    ensures !stop ==> WalkLeads(t, pool, cur + PAGE_SIZE, job, turns, result)
  {
  }

  /** The frames of the pool from i on go back, one lock each. */
  ghost function PutBack(s: Fault, pool: seq<nat>, i: nat, turns: seq<Turn>): Fault
    decreases |pool| - i
  {
    if i >= |pool| then s else PutBack(Race(Return(s, pool[i]), turns), pool, i + 1, turns)
  }

  ghost predicate PutBackLeads(s: Fault, pool: seq<nat>, i: nat, turns: seq<Turn>, result: Fault) {
    PutBack(s, pool, i, turns) == result
  }

  lemma PutBackStep(s: Fault, pool: seq<nat>, i: nat, turns: seq<Turn>, result: Fault, t: Fault)
    requires i < |pool| && PutBackLeads(s, pool, i, turns, result) && t == Race(Return(s, pool[i]), turns)
    ensures PutBackLeads(t, pool, i + 1, turns, result)
  {
  }

  /** The read-ahead window as a whole. */
  ghost function Prefetch(s: Fault, job: Job, turns: seq<Turn>): (Fault, bool) {
    var (t, pool) := Supply(s, job, turns);
    var l := Walk(Loop(t, 0, false), pool, job.first, job, turns);
    (PutBack(l.s, pool, l.idx, turns), l.anyMapped)
  }

  /** A single frame for the faulting page alone. */
  ghost function Single(s: Fault, job: Job, turns: seq<Turn>): (Fault, bool) {
    var (t, got) := AllocUser(s, turns);
    if got.None? then (t, false) else (Install(Race(t, turns), job.first, got.value, job), true)
  }

  /** A fault on the first page of the window, and whether it was resolved. */
  ghost function Resolve(s: Fault, job: Job, turns: seq<Turn>): (Fault, bool) {
    var (t, anyMapped) := Prefetch(s, job, turns);
    if anyMapped then (t, true)
    else
      var u := Race(t, turns);
      if job.first in u.table then (u, true) else Single(u, job, turns)
  }

  // ---------------------------------------------------------------- every frame has one place

  /** The frames that mappings use. */
  ghost function FramesOf(m: map<int, nat>): set<nat> {
    set va | va in m :: m[va]
  }

  /** The frames a fault is about: free, or in the hands of the others, when it begins. */
  ghost function Universe(o: Fault): set<nat> {
    FreeOf(o.books) + o.foreign
  }

  /** The frames the fault is about by now: those, and what came back from evicted pages. */
  ghost function Known(s: Fault, o: Fault): set<nat> {
    Universe(o) + s.log.freed
  }

  /** In how many places a frame is; `out` are the frames the fault has drawn and not used yet. */
  ghost function Places(s: Fault, out: set<nat>, f: nat): nat {
    One(f in FreeOf(s.books)) + One(f in s.foreign) + One(f in FramesOf(s.log.placed))
    + One(f in FramesOf(s.log.theirs)) + One(f in out)
  }

  ghost predicate PlacedOnce(s: Fault, out: set<nat>, o: Fault, f: nat) {
    Places(s, out, f) == One(f in Known(s, o))
  }

  ghost predicate Partition(s: Fault, out: set<nat>, o: Fault) {
    forall f: nat :: PlacedOnce(s, out, o, f)
  }

  /** Free pages and all others in range; no frame the fault is about is shared. */
  ghost predicate Steady(s: Fault, o: Fault) {
    && s.books.ledger.pool.total == o.books.ledger.pool.total && Wf(s.books.ledger.pool)
    && forall f :: f in Known(s, o) ==> f < s.books.ledger.pool.total && f !in s.books.refs
  }

  /** Counters of shared frames change only for evicted pages, and only downwards. */
  ghost predicate SharedOk(s: Fault, o: Fault) {
    && (forall f: nat :: f !in s.log.dropped ==> (f in s.books.refs <==> f in o.books.refs))
    && (forall f :: f in s.books.refs ==> f in o.books.refs && s.books.refs[f] <= o.books.refs[f])
    && forall f :: f in s.books.refs && f !in s.log.dropped ==> s.books.refs[f] == o.books.refs[f]
  }

  /** Mappings that were there stay as they are. */
  ghost predicate StaysMapped(table: map<int, nat>, before: map<int, nat>) {
    forall va :: va in before ==> va in table && table[va] == before[va]
  }

  /** A page is mapped as it was, by the fault, or by the others. */
  ghost predicate Explained(s: Fault, o: Fault, va: int)
    requires va in s.table
  {
    || (va in o.table && va !in s.log.gone && s.table[va] == o.table[va] && s.table[va] !in Known(s, o))
    || va in s.log.placed || va in s.log.theirs
  }

  /** The table is what it was but for evicted pages, what the others mapped and what the fault mapped. */
  ghost predicate Composed(s: Fault, o: Fault) {
    && (forall va :: va in o.table ==> va in s.log.gone || (va in s.table && s.table[va] == o.table[va]))
    && StaysMapped(s.table, s.log.placed) && StaysMapped(s.table, s.log.theirs)
    && forall va :: va in s.table ==> Explained(s, o, va)
  }

  /** A page of the window: some whole pages after the first one, and before the end. */
  predicate IsPageOf(job: Job, va: int) {
    job.first <= va < job.end && (va - job.first) % PAGE_SIZE == 0
  }

  /** The fault's mappings: on unmapped pages of the window, one frame each, showing the file. */
  ghost predicate Images(s: Fault, o: Fault, job: Job) {
    && (forall va :: va in s.log.placed ==> (va !in o.table || va in s.log.gone) && IsPageOf(job, va))
    && (forall va, wa :: va in s.log.placed && wa in s.log.placed && va != wa
                         ==> s.log.placed[va] != s.log.placed[wa])
    && (forall va :: va in s.log.placed ==>
                     s.log.placed[va] in s.contents && s.contents[s.log.placed[va]] == FillPage(job.file, job.seg, va))
  }

  ghost function Aliases(table: map<int, nat>, f: nat): (r: set<int>)
    ensures forall va :: va in r <==> va in table && table[va] == f
  {
    set va | va in table && table[va] == f
  }

  ghost predicate NewlyMapped(s: Fault, f: nat) {
    f in FramesOf(s.log.placed) || f in FramesOf(s.log.theirs)
  }

  /** The list of the space covers its mappings; what was not evicted or newly mapped is as it was. */
  ghost predicate Listed(s: Fault, o: Fault, f: nat) {
    && (f in s.owned ==> |Aliases(s.table, f)| <= s.owned[f] && 1 <= s.owned[f] && f < s.books.ledger.pool.total
                         && (NewlyMapped(s, f) || f !in Known(s, o)))
    && (NewlyMapped(s, f) ==> CountIn(s.owned, f) == 1)
    && (!NewlyMapped(s, f) && f !in s.log.dropped ==> CountIn(s.owned, f) == CountIn(o.owned, f))
  }

  ghost predicate AllListed(s: Fault, o: Fault) {
    forall f: nat :: Listed(s, o, f)
  }

  /** How often a frame was drawn. */
  function TimesDrawn(draws: seq<Draw>, f: nat): nat
    decreases |draws|
  {
    if draws == [] then 0 else TimesDrawn(draws[..|draws| - 1], f) + multiset(draws[|draws| - 1].frames)[f]
  }

  /** A frame was drawn as often as it was returned, and once more if it is placed or out. */
  ghost predicate UsedOnce(log: Log, out: set<nat>, f: nat) {
    TimesDrawn(log.draws, f) == multiset(log.returned)[f] + One(f in FramesOf(log.placed)) + One(f in out)
  }

  /** A draw was announced to the reserve by a look, and finds what the others have left since. */
  predicate Announced(d: Draw) {
    |d.frames| <= d.found == d.seen - d.taken && |d.frames| + USER_PAGE_RESERVE <= d.seen
  }

  ghost predicate Accounted(log: Log, out: set<nat>) {
    (forall f: nat :: UsedOnce(log, out, f)) && forall d :: d in log.draws ==> Announced(d)
  }

  /** The frames that a table shows at some of its pages. */
  ghost function FramesAt(table: map<int, nat>, vas: set<int>): set<nat> {
    set va | va in vas && va in table :: table[va]
  }

  /** Only read-only pages of files are evicted, and only their frames are let go or come back. */
  ghost predicate EvictedOk(s: Fault, o: Fault) {
    && s.readOnly == o.readOnly && s.log.gone <= o.readOnly && s.log.freed <= s.log.dropped
    && s.log.dropped <= Universe(o) + FramesAt(o.table, s.log.gone)
  }

  /** What is known of the address space and of the counters. */
  ghost predicate SpaceOk(s: Fault, o: Fault, job: Job) {
    Steady(s, o) && SharedOk(s, o) && Composed(s, o) && Images(s, o, job) && AllListed(s, o) && EvictedOk(s, o)
  }

  ghost predicate Sound(s: Fault, out: set<nat>, o: Fault, job: Job) {
    SpaceOk(s, o, job) && Partition(s, out, o) && Accounted(s.log, out)
  }

  /**
   A fault begins: the frames it is about are in range, not shared and not mapped, and the list of the
   space counts every frame at least as often as it is mapped.
   */
  ghost predicate Begins(o: Fault) {
    && Wf(o.books.ledger.pool) && FreeOf(o.books) !! o.foreign
    && (forall f :: f in Universe(o) ==> f < o.books.ledger.pool.total && f !in o.books.refs)
    && (forall va :: va in o.table ==> o.table[va] !in Universe(o))
    && (forall f :: f in o.owned ==> |Aliases(o.table, f)| <= o.owned[f] && 1 <= o.owned[f]
                                     && f < o.books.ledger.pool.total && f !in Universe(o))
    && o.log == NEW_LOG
  }

  lemma BeginsSound(o: Fault, job: Job)
    requires Begins(o)
    ensures Sound(o, {}, o, job)
  {
    assert FramesOf(map[]) == {};
    assert forall f: nat :: PlacedOnce(o, {}, o, f) && UsedOnce(o.log, {}, f) && Listed(o, o, f);
    assert forall va :: va in o.table ==> Explained(o, o, va);
  }
}
