/** Threads that the IRQ entry points switch between, and new ones that start from a hand-made frame. */
module IrqSchedule {
  import opened Prelude
  import opened Words
  import opened IrqFrame

  /** The stack of a thread: addresses from `lo` up to `hi`. */
  datatype Stack = Stack(lo: int, hi: int)

  /** What a thread held when it last stopped running. No step reads it. */
  datatype Frozen = Frozen(regs: Regs, sp: int, mem: Mem)

  /** `contexts` are the recorded stack pointers of the threads. */
  datatype World = World(cpu: Cpu, current: int, stacks: map<int, Stack>, contexts: map<int, int>,
                         frozen: map<int, Frozen>)

  datatype Step =
    | Run(after: Cpu)
    | Irq(entry: Entry, regs: Regs, mem: Mem, next: Option<int>)
    | Spawn(t: int, stack: Stack, start: Start)

  /** The arguments of a hand-made frame. */
  datatype Start = Start(pc: Word, x19: Word, x20: Word, x21: Word, exit: Word)

  const RAM_BASE: int := 0x4000_0000

  // ---------------------------------------------------------------- a hand-made frame

  /** Zero the words of [lo, hi). */
  function ZeroWords(m: Mem, lo: int, hi: int): Mem
    decreases hi - lo
  {
    if lo >= hi then m else ZeroWords(m, lo + 8, hi)[lo := 0]
  }

  function FrameSpsr(x21: Word): Word {
    if x21 != 0 then 0x3C5 else 0x345
  }

  /** Write the frame of a new thread below `top`; it starts at `top - 832`. */
  function FakeFrame(m: Mem, top: int, s: Start): Mem {
    var base := top - FRAME_BYTES;
    ZeroWords(m, base, top)[base := s.exit][base + 80 := s.x20][base + 88 := s.x21][base + 104 := s.x19]
      [base + 240 := s.pc][base + 248 := FrameSpsr(s.x21)]
  }

  /** The registers a new thread is to start with. */
  function StartRegs(s: Start): Regs {
    map[X(30) := s.exit, X(19) := s.x19, X(20) := s.x20, X(21) := s.x21,
        ELR_EL1 := s.pc, SPSR_EL1 := FrameSpsr(s.x21)]
  }

  lemma {:induction false} ZeroWordsReads(m: Mem, lo: int, hi: int, at: int)
    ensures !(lo <= at < hi) ==> Peek(ZeroWords(m, lo, hi), at) == Peek(m, at)
    ensures lo <= at < hi && (at - lo) % 8 == 0 ==> Peek(ZeroWords(m, lo, hi), at) == 0
    decreases hi - lo
  {
    if lo < hi {
      ZeroWordsReads(m, lo + 8, hi, at);
    }
  }

  /** Every slot is a word of its own inside the frame. */
  lemma SlotShape(r: Reg)
    requires Named(r)
    ensures 0 <= Slot(r) < FRAME_BYTES && Slot(r) % 8 == 0
  {
  }

  /** The slots that a hand-made frame fills belong to the registers it is meant to set. */
  lemma FilledSlots(r: Reg)
    requires Named(r)
    ensures Slot(r) == 0 <==> r == X(30)
    ensures Slot(r) == 80 <==> r == X(20)
    ensures Slot(r) == 88 <==> r == X(21)
    ensures Slot(r) == 104 <==> r == X(19)
    ensures Slot(r) == 240 <==> r == ELR_EL1
    ensures Slot(r) == 248 <==> r == SPSR_EL1
  {
  }

  /**
   A program status for kernel mode on the kernel's stack (the low bits are 5), with debug exceptions,
   system errors and fast interrupts masked (bits 9, 8, 6), and interrupts (bit 7) if `masked`.
   */
  predicate KernelStatus(spsr: Word, masked: bool) {
    && spsr < 1024 && spsr % 64 == 5
    && spsr / 512 % 2 == 1 && spsr / 256 % 2 == 1 && spsr / 64 % 2 == 1
    && (spsr / 128 % 2 == 1 <==> masked)
  }

  /** The arguments are in the registers one by one, interrupts are masked exactly if x21 is not zero. */
  ghost predicate SetUp(regs: Regs, s: Start) {
    && Get(regs, ELR_EL1) == s.pc && KernelStatus(Get(regs, SPSR_EL1), s.x21 != 0)
    && Get(regs, X(30)) == s.exit && Get(regs, X(19)) == s.x19 && Get(regs, X(20)) == s.x20
    && Get(regs, X(21)) == s.x21
    && forall r: Reg :: r !in {X(30), X(19), X(20), X(21), ELR_EL1, SPSR_EL1} && Named(r) ==> Get(regs, r) == 0
  }

  lemma StartIsSetUp(s: Start)
    ensures SetUp(StartRegs(s), s)
  {
  }

  lemma ResumesAsSetUp(regs: Regs, s: Start)
    requires Resumes(regs, StartRegs(s))
    ensures SetUp(regs, s)
  {
    StartIsSetUp(s);
    assert Back(regs, StartRegs(s), ELR_EL1) && Back(regs, StartRegs(s), SPSR_EL1);
    assert Back(regs, StartRegs(s), X(30)) && Back(regs, StartRegs(s), X(19));
    assert Back(regs, StartRegs(s), X(20)) && Back(regs, StartRegs(s), X(21));
    forall r: Reg | r !in {X(30), X(19), X(20), X(21), ELR_EL1, SPSR_EL1} && Named(r)
      ensures Get(regs, r) == 0
    {
      assert Back(regs, StartRegs(s), r);
    }
  }

  /** The words of the frame by number: the six that are filled in, and all others zero. */
  lemma FakeFrameWords(m: Mem, top: int, s: Start, k: nat)
    requires k < 104
    ensures var word := Peek(FakeFrame(m, top, s), top - 832 + 8 * k);
            && (k == 0 ==> word == s.exit) && (k == 10 ==> word == s.x20) && (k == 11 ==> word == s.x21)
            && (k == 13 ==> word == s.x19) && (k == 30 ==> word == s.pc)
            && (k == 31 ==> KernelStatus(word, s.x21 != 0))
            && (k !in {0, 10, 11, 13, 30, 31} ==> word == 0)
  {
    ZeroWordsReads(m, top - 832, top, top - 832 + 8 * k);
  }

  /** The hand-made frame agrees with the layout that the restore code pops. */
  lemma FakeFrameHolds(m: Mem, top: int, s: Start)
    ensures Holds(FakeFrame(m, top, s), top - FRAME_BYTES, StartRegs(s)) && SetUp(StartRegs(s), s)
    ensures SameOutside(FakeFrame(m, top, s), m, top - FRAME_BYTES, top)
  {
    StartIsSetUp(s);
    var base := top - FRAME_BYTES;
    forall r: Reg | Named(r)
      ensures Held(FakeFrame(m, top, s), base, StartRegs(s), r)
    {
      SlotShape(r);
      FilledSlots(r);
      ZeroWordsReads(m, base, top, base + Slot(r));
    }
    forall at | !(base <= at < top)
      ensures Peek(FakeFrame(m, top, s), at) == Peek(m, at)
    {
      ZeroWordsReads(m, base, top, at);
    }
  }

  // ---------------------------------------------------------------- steps

  /** Stacks lie in RAM and apart from each other. */
  predicate Apart(a: Stack, b: Stack) {
    a.hi <= b.lo || b.hi <= a.lo
  }

  /** Memory agrees on a stack from `from` upwards. */
  ghost predicate Agree(a: Mem, b: Mem, from: int, s: Stack) {
    forall at :: from <= at < s.hi ==> Peek(a, at) == Peek(b, at)
  }

  /** Only the running thread's stack below `from`, and memory outside all stacks, may differ. */
  ghost predicate OthersUntouched(w: World, a: Mem, b: Mem) {
    forall t :: t in w.stacks && t != w.current ==> Agree(a, b, w.stacks[t].lo, w.stacks[t])
  }

  /**
   What the kernel assumes of its threads and handlers: a thread keeps to its own stack and leaves
   room for a frame, a handler returns with its caller's stack intact, interrupted code has a
   program counter.
   */
  ghost predicate Enabled(w: World, s: Step)
    requires w.current in w.stacks
  {
    var stack := w.stacks[w.current];
    match s
    case Run(after) => stack.lo <= after.sp <= stack.hi && OthersUntouched(w, after.mem, w.cpu.mem)
    case Irq(entry, regs, mem, next) =>
      var pushed := SaveFrame(entry, w.cpu);
      && stack.lo + FRAME_BYTES <= w.cpu.sp
      && Get(w.cpu.regs, ELR_EL1) != 0
      && Agree(mem, pushed.mem, pushed.sp, stack) && OthersUntouched(w, mem, pushed.mem)
      && (next.Some? ==> next.value in w.contexts || next.value == w.current)
    case Spawn(t, at, start) =>
      && t !in w.stacks && RAM_BASE <= at.lo && at.lo + FRAME_BYTES <= at.hi
      && (forall u :: u in w.stacks ==> Apart(w.stacks[u], at))
      && start.pc != 0
  }

  /** The handler's answer: the recorded stack pointer to switch to, or zero. */
  function Answer(w: World, sp: int, next: Option<int>): int {
    if next.None? then 0
    else if next.value == w.current then sp
    else if next.value in w.contexts then w.contexts[next.value] else 0
  }

  /** The interrupt up to the restore phase. */
  function Switched(w: World, s: Step): Cpu
    requires s.Irq?
  {
    var sp := SaveFrame(s.entry, w.cpu).sp;
    var answer := Answer(w, sp, s.next);
    Cpu(s.regs, if answer == 0 then sp else answer, s.mem)
  }

  function Next(w: World, s: Step): Option<World> {
    match s
    case Run(after) => Some(w.(cpu := after))
    case Irq(entry, regs, mem, next) =>
      var restored := RestoreFrame(entry, Switched(w, s));
      if restored.None? then None
      else if next.None? then Some(w.(cpu := restored.value))
      else
        Some(World(restored.value, next.value, w.stacks,
                   w.contexts[w.current := SaveFrame(entry, w.cpu).sp],
                   w.frozen[w.current := Frozen(w.cpu.regs, w.cpu.sp, w.cpu.mem)]))
    case Spawn(t, stack, start) =>
      Some(w.(cpu := w.cpu.(mem := FakeFrame(w.cpu.mem, stack.hi, start)),
              stacks := w.stacks[t := stack],
              contexts := w.contexts[t := stack.hi - FRAME_BYTES],
              frozen := w.frozen[t := Frozen(StartRegs(start), stack.hi, FakeFrame(w.cpu.mem, stack.hi, start))]))
  }

  // ---------------------------------------------------------------- the invariant

  ghost predicate StacksOk(w: World) {
    && w.current in w.stacks
    && (forall t :: t in w.stacks ==> RAM_BASE <= w.stacks[t].lo)
    && forall t, u :: t in w.stacks && u in w.stacks && t != u ==> Apart(w.stacks[t], w.stacks[u])
  }

  /** A stopped thread: its frame lies on its stack and holds what it had, and its stack is as it left it. */
  ghost predicate Stopped(mem: Mem, stack: Stack, context: int, f: Frozen) {
    && stack.lo <= context && context + FRAME_BYTES == f.sp <= stack.hi
    && Holds(mem, context, f.regs)
    && Agree(mem, f.mem, f.sp, stack)
    && Get(f.regs, ELR_EL1) != 0
  }

  ghost predicate StoppedIn(w: World, t: int) {
    t in w.stacks && t in w.frozen && t in w.contexts && Stopped(w.cpu.mem, w.stacks[t], w.contexts[t], w.frozen[t])
  }

  ghost predicate Inv(w: World) {
    && StacksOk(w)
    && w.stacks[w.current].lo <= w.cpu.sp <= w.stacks[w.current].hi
    && forall t {:trigger StoppedIn(w, t)} :: t in w.contexts && t != w.current ==> StoppedIn(w, t)
  }

  /** A frame survives any change of memory that leaves its stack alone. */
  lemma HoldsKept(a: Mem, b: Mem, sp: int, regs: Regs, stack: Stack)
    requires Holds(a, sp, regs) && stack.lo <= sp && sp + FRAME_BYTES <= stack.hi
    requires Agree(b, a, sp, stack)
    ensures Holds(b, sp, regs)
  {
    forall r: Reg | Named(r)
      ensures Held(b, sp, regs, r)
    {
      SlotShape(r);
      assert Held(a, sp, regs, r);
    }
  }

  lemma StoppedKept(a: Mem, b: Mem, stack: Stack, context: int, f: Frozen)
    requires Stopped(a, stack, context, f) && Agree(b, a, stack.lo, stack)
    ensures Stopped(b, stack, context, f)
  {
    HoldsKept(a, b, context, f.regs, stack);
  }

  /** Pushing a frame leaves the other stacks alone. */
  lemma PushLeavesOthers(w: World, e: Entry, t: int)
    requires Inv(w) && t in w.stacks && t != w.current
    requires w.stacks[w.current].lo + FRAME_BYTES <= w.cpu.sp
    ensures Agree(SaveFrame(e, w.cpu).mem, w.cpu.mem, w.stacks[t].lo, w.stacks[t])
  {
    SavePhase(e, w.cpu);
    assert Apart(w.stacks[t], w.stacks[w.current]);
  }

  /** The thread that was interrupted is stopped properly once the handler returns. */
  lemma InterruptedStops(w: World, s: Step)
    requires Inv(w) && s.Irq? && Enabled(w, s)
    ensures Stopped(s.mem, w.stacks[w.current], SaveFrame(s.entry, w.cpu).sp,
                    Frozen(w.cpu.regs, w.cpu.sp, w.cpu.mem))
  {
    var pushed := SaveFrame(s.entry, w.cpu);
    SavePhase(s.entry, w.cpu);
    HoldsKept(pushed.mem, s.mem, pushed.sp, w.cpu.regs, w.stacks[w.current]);
  }

  /** The other threads stay stopped through an interrupt. */
  lemma OthersStayStopped(w: World, s: Step, t: int)
    requires Inv(w) && s.Irq? && Enabled(w, s)
    requires t in w.contexts && t != w.current
    ensures StoppedIn(w, t) && Stopped(s.mem, w.stacks[t], w.contexts[t], w.frozen[t])
  {
    assert StoppedIn(w, t);
    PushLeavesOthers(w, s.entry, t);
    StoppedKept(w.cpu.mem, SaveFrame(s.entry, w.cpu).mem, w.stacks[t], w.contexts[t], w.frozen[t]);
    StoppedKept(SaveFrame(s.entry, w.cpu).mem, s.mem, w.stacks[t], w.contexts[t], w.frozen[t]);
  }

  /** The thread that an interrupt goes on with. */
  function Resumed(w: World, s: Step): int
    requires s.Irq?
  {
    if s.next.None? then w.current else s.next.value
  }

  /** What that thread held when it stopped: now, or when it was last switched away from. */
  function Expected(w: World, s: Step): Frozen
    requires s.Irq? && (Resumed(w, s) != w.current ==> Resumed(w, s) in w.frozen)
  {
    if Resumed(w, s) == w.current then Frozen(w.cpu.regs, w.cpu.sp, w.cpu.mem) else w.frozen[Resumed(w, s)]
  }

  /**
   The stack pointer switched to passes the handler's sanity test, the core never parks, and it goes
   on with exactly the registers, stack pointer and stack of the thread it resumes, the IL bit of
   SPSR aside.
   */
  lemma IrqResumes(w: World, s: Step)
    requires Inv(w) && s.Irq? && Enabled(w, s)
    ensures s.next.Some? ==> Answer(w, SaveFrame(s.entry, w.cpu).sp, s.next) >= RAM_BASE
    ensures Next(w, s).Some?
    ensures Resumed(w, s) in w.stacks && (Resumed(w, s) != w.current ==> Resumed(w, s) in w.frozen)
    ensures var v, f := Next(w, s).value, Expected(w, s);
            && v.current == Resumed(w, s) && v.cpu.mem == s.mem
            && Resumes(v.cpu.regs, f.regs) && v.cpu.sp == f.sp
            && Agree(v.cpu.mem, f.mem, f.sp, w.stacks[Resumed(w, s)])
            && w.stacks[Resumed(w, s)].lo <= f.sp <= w.stacks[Resumed(w, s)].hi
  {
    var t := Resumed(w, s);
    SavePhase(s.entry, w.cpu);
    InterruptedStops(w, s);
    if t != w.current {
      OthersStayStopped(w, s, t);
    }
    RestorePhase(s.entry, Switched(w, s), Expected(w, s).regs);
  }

  lemma IrqKeepsInv(w: World, s: Step)
    requires Inv(w) && s.Irq? && Enabled(w, s)
    ensures Next(w, s).Some? && Inv(Next(w, s).value)
  {
    IrqResumes(w, s);
    var v := Next(w, s).value;
    InterruptedStops(w, s);
    forall t | t in v.contexts && t != v.current
      ensures StoppedIn(v, t)
    {
      if t != w.current {
        OthersStayStopped(w, s, t);
      }
    }
  }

  lemma RunKeepsInv(w: World, s: Step)
    requires Inv(w) && s.Run? && Enabled(w, s)
    ensures Inv(Next(w, s).value)
  {
    var v := Next(w, s).value;
    forall t | t in v.contexts && t != v.current
      ensures StoppedIn(v, t)
    {
      assert StoppedIn(w, t);
      StoppedKept(w.cpu.mem, s.after.mem, w.stacks[t], w.contexts[t], w.frozen[t]);
    }
  }

  lemma SpawnKeepsInv(w: World, s: Step)
    requires Inv(w) && s.Spawn? && Enabled(w, s)
    ensures Inv(Next(w, s).value)
  {
    var v := Next(w, s).value;
    FakeFrameHolds(w.cpu.mem, s.stack.hi, s.start);
    forall t | t in v.contexts && t != v.current
      ensures StoppedIn(v, t)
    {
      if t != s.t {
        assert StoppedIn(w, t);
        assert Apart(w.stacks[t], s.stack);
        StoppedKept(w.cpu.mem, v.cpu.mem, w.stacks[t], w.contexts[t], w.frozen[t]);
      }
    }
  }

  lemma StepKeepsInv(w: World, s: Step)
    requires Inv(w) && Enabled(w, s)
    ensures Next(w, s).Some? && Inv(Next(w, s).value)
  {
    match s
    case Run(_) => RunKeepsInv(w, s);
    case Irq(_, _, _, _) => IrqKeepsInv(w, s);
    case Spawn(_, _, _) => SpawnKeepsInv(w, s);
  }

  // ---------------------------------------------------------------- schedules

  /** `ws` are the states of a run of the steps `ss`. */
  ghost predicate Schedule(ws: seq<World>, ss: seq<Step>) {
    && |ws| == |ss| + 1 && Inv(ws[0])
    && forall i: nat {:trigger Follows(ws, ss, i)} :: i < |ss| ==> Follows(ws, ss, i)
  }

  ghost predicate Follows(ws: seq<World>, ss: seq<Step>, i: nat)
    requires |ws| == |ss| + 1 && i < |ss|
  {
    ws[i].current in ws[i].stacks && Enabled(ws[i], ss[i]) && Next(ws[i], ss[i]) == Some(ws[i + 1])
  }

  lemma {:induction false} InvThroughout(ws: seq<World>, ss: seq<Step>, n: nat)
    requires Schedule(ws, ss) && n <= |ss|
    ensures Inv(ws[n])
  {
    if n > 0 {
      InvThroughout(ws, ss, n - 1);
      assert Follows(ws, ss, n - 1);
      StepKeepsInv(ws[n - 1], ss[n - 1]);
    }
  }

  /** Step i takes the processor away from t. */
  ghost predicate Leaves(ws: seq<World>, ss: seq<Step>, i: nat, t: int)
    requires |ws| == |ss| + 1 && i < |ss|
  {
    ss[i].Irq? && ws[i].current == t && ss[i].next.Some? && ss[i].next.value != t
  }

  /** Step i gives the processor back to t. */
  ghost predicate Returns(ws: seq<World>, ss: seq<Step>, i: nat, t: int)
    requires |ws| == |ss| + 1 && i < |ss|
  {
    ss[i].Irq? && ws[i].current != t && ss[i].next == Some(t)
  }

  /** The record of a stopped thread does not change while others run. */
  lemma {:induction false} RecordKept(ws: seq<World>, ss: seq<Step>, i: nat, j: nat, t: int)
    requires Schedule(ws, ss) && i < j <= |ss| && Leaves(ws, ss, i, t)
    requires forall k :: i < k < j ==> ws[k].current != t
    ensures t in ws[j].frozen && ws[j].frozen[t] == Frozen(ws[i].cpu.regs, ws[i].cpu.sp, ws[i].cpu.mem)
    ensures t in ws[j].stacks && t in ws[i].stacks && ws[j].stacks[t] == ws[i].stacks[t]
    decreases j
  {
    assert Follows(ws, ss, j - 1);
    if j > i + 1 {
      RecordKept(ws, ss, i, j - 1, t);
    }
  }

  /**
   In every schedule: when a thread gets the processor back, it finds the registers and the stack
   pointer it had when the processor was taken from it, and its stack unchanged from there up.
   */
  lemma ThreadResumesAsItStopped(ws: seq<World>, ss: seq<Step>, i: nat, j: nat, t: int)
    requires Schedule(ws, ss) && i < j < |ss|
    requires Leaves(ws, ss, i, t) && Returns(ws, ss, j, t)
    requires forall k :: i < k < j ==> ws[k].current != t
    ensures ws[j + 1].current == t && t in ws[i].stacks
    ensures Resumes(ws[j + 1].cpu.regs, ws[i].cpu.regs) && ws[j + 1].cpu.sp == ws[i].cpu.sp
    ensures Agree(ws[j + 1].cpu.mem, ws[i].cpu.mem, ws[i].cpu.sp, ws[i].stacks[t])
  {
    InvThroughout(ws, ss, j);
    RecordKept(ws, ss, i, j, t);
    assert Follows(ws, ss, j);
    IrqResumes(ws[j], ss[j]);
  }

  /** A new thread starts with the registers of its hand-made frame, on an empty stack. */
  lemma {:induction false} StartKept(ws: seq<World>, ss: seq<Step>, i: nat, j: nat)
    requires Schedule(ws, ss) && i < j <= |ss| && ss[i].Spawn?
    requires forall k :: i < k < j ==> ws[k].current != ss[i].t
    ensures ss[i].t in ws[j].frozen
    ensures ws[j].frozen[ss[i].t].regs == StartRegs(ss[i].start) && ws[j].frozen[ss[i].t].sp == ss[i].stack.hi
    ensures ss[i].t in ws[j].stacks
    decreases j
  {
    assert Follows(ws, ss, j - 1);
    if j > i + 1 {
      StartKept(ws, ss, i, j - 1);
    }
  }

  /** In every schedule a new thread starts with its arguments in their registers, on an empty stack. */
  lemma NewThreadStartsAsSetUp(ws: seq<World>, ss: seq<Step>, i: nat, j: nat)
    requires Schedule(ws, ss) && i < j < |ss| && ss[i].Spawn? && Returns(ws, ss, j, ss[i].t)
    requires forall k :: i < k < j ==> ws[k].current != ss[i].t
    ensures ws[j + 1].current == ss[i].t
    ensures SetUp(ws[j + 1].cpu.regs, ss[i].start) && ws[j + 1].cpu.sp == ss[i].stack.hi
  {
    InvThroughout(ws, ss, j);
    StartKept(ws, ss, i, j);
    assert Follows(ws, ss, j);
    IrqResumes(ws[j], ss[j]);
    ResumesAsSetUp(ws[j + 1].cpu.regs, ss[i].start);
  }
}
