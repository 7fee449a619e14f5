/**
 Delivery of a signal to a user handler and the return from it: which stack is used, what becomes of
 the signal, and what sigreturn brings back.
 */
module SignalDelivery {
  import opened Prelude
  import opened Words
  import opened ByteMemory
  import opened SignalFrame

  const SA_SIGINFO: nat := 4
  const SA_ONSTACK: nat := 0x0800_0000
  const SA_RESTART: nat := 0x1000_0000
  const SA_NODEFER: nat := 0x4000_0000
  const SIGKILL: int := 9
  const SIGSTOP: int := 19
  const SIGURG: int := 23

  datatype Handler = UserFn(addr: Word) | Other

  datatype Action = Action(handler: Handler, flags: Word, mask: set<int>, restorer: Word)

  /** The alternate stack; an address of zero means that there is none. */
  datatype Alt = Alt(sp: Word, size: Word)
  {
    function Top(): int { sp + size }

    predicate Holds(a: int) { sp != 0 && sp <= a < Top() }
  }

  /** `armed` is the mask that rt_sigsuspend left to be restored. `mapped` are page addresses. */
  datatype Thread = Thread(ctx: Context, mask: set<int>, armed: Option<set<int>>, pending: set<int>, alt: Alt,
                           mem: Mem, mapped: set<int>)
  {
    predicate Wf() {
      && ctx.Wf() && Signals(mask) && SIGKILL !in mask && SIGSTOP !in mask
      && (armed.Some? ==> Signals(armed.value))
      && alt.Top() < WORD_LIMIT
    }
  }

  /** What the kernel knows when it delivers: the trap, the handler table, what can be mapped. */
  datatype Cause = Cause(signal: nat, faultAddr: Word, isFault: bool, inSyscall: bool,
                         actions: seq<Action>, trampoline: Option<Word>, mappable: set<int>)
  {
    predicate Wf() {
      |actions| == 64 && signal < LIMIT32
      && (forall i :: 0 <= i < 64 ==> Signals(actions[i].mask))
      && forall p :: p in mappable ==> 0 <= p && p + PAGE_SIZE <= WORD_LIMIT
    }
  }

  predicate HasFlag(flags: Word, flag: nat)
    requires flag > 0
  {
    flags / flag % 2 == 1
  }

  function PageOf(a: int): int {
    a - a % PAGE_SIZE
  }

  /** Signals that no mask may hold. */
  function Maskable(s: set<int>): set<int> {
    s - {SIGKILL, SIGSTOP}
  }

  // ---------------------------------------------------------------- delivery

  /** A system call whose result says that it was interrupted: -EINTR or -ERESTARTSYS. */
  predicate Interrupted(x0: Word) {
    x0 == WORD_LIMIT - 4 || x0 == WORD_LIMIT - 512
  }

  predicate Restarts(ctx: Context, c: Cause, action: Action)
    requires ctx.Wf()
  {
    HasFlag(action.flags, SA_RESTART) && c.inSyscall && Interrupted(ctx.x[0])
  }

  /** The program counter is moved back to the system call instruction if that is to be restarted. */
  function Rewound(ctx: Context, c: Cause, action: Action): (r: Context)
    requires ctx.Wf()
    ensures r.Wf()
  {
    if Restarts(ctx, c, action) then ctx.(pc := (ctx.pc + WORD_LIMIT - 4) % WORD_LIMIT) else ctx
  }

  function Restorer(c: Cause, action: Action): Option<Word> {
    if action.restorer != 0 then Some(action.restorer) else c.trampoline
  }

  predicate WantsAlt(alt: Alt, action: Action) {
    HasFlag(action.flags, SA_ONSTACK) && alt.sp != 0 && alt.size >= SIGFRAME_SIZE
  }

  function StackTop(t: Thread, action: Action): int {
    if WantsAlt(t.alt, action) then t.alt.Top() else t.ctx.sp
  }

  /** Room for the frame below `top`, rounded down to 16 bytes; the subtraction wraps. */
  function FrameBase(top: int): (b: int)
    requires 0 <= top < WORD_LIMIT
    ensures 0 <= b < WORD_LIMIT && b % 16 == 0
    ensures top >= SIGFRAME_SIZE ==> top - SIGFRAME_SIZE - 15 <= b <= top - SIGFRAME_SIZE
  {
    var low := (top + WORD_LIMIT - SIGFRAME_SIZE) % WORD_LIMIT;
    low - low % 16
  }

  function FirstPage(base: int): int { PageOf(base) }

  function LastPage(base: int): int { PageOf(base + SIGFRAME_SIZE - 1) }

  /** The mask that the frame saves. */
  function SavedMask(t: Thread): set<int> {
    if t.armed.Some? then t.armed.value else t.mask
  }

  function FrameInfo(t: Thread, c: Cause, action: Action): Info {
    Info(c.signal, c.isFault, c.faultAddr, t.alt.sp, t.alt.size, StackTop(t, action) != t.ctx.sp,
         Encode(SavedMask(t)), t.ctx)
  }

  /** The context in which the handler starts. */
  function HandlerContext(ctx: Context, c: Cause, action: Action, base: Word, restorer: Word): (r: Context)
    requires ctx.Wf() && action.handler.UserFn?
    ensures r.Wf()
  {
    var x := ctx.x[30 := restorer][0 := c.signal % WORD_LIMIT];
    var args := if HasFlag(action.flags, SA_SIGINFO)
      then x[1 := base][2 := (base + 128) % WORD_LIMIT] else x;
    ctx.(x := args, sp := base, pc := action.handler.addr)
  }

  /** The signals blocked while the handler runs, besides those blocked already. */
  function HandlerMask(c: Cause, action: Action): set<int> {
    (if HasFlag(action.flags, SA_NODEFER) then {} else {c.signal}) + action.mask
  }

  datatype Outcome = Refused(thread: Thread) | Delivered(thread: Thread)

  /** Delivery after the handler, the restorer and the program counter are settled. */
  function PlaceFrame(t: Thread, c: Cause, action: Action, restorer: Word): Outcome
    requires t.Wf() && c.Wf() && action.handler.UserFn?
  {
    var base := FrameBase(StackTop(t, action));
    if FirstPage(base) !in c.mappable then Refused(t)
    else if LastPage(base) !in c.mappable then Refused(t.(mapped := t.mapped + {FirstPage(base)}))
    else
      Delivered(t.(ctx := HandlerContext(t.ctx, c, action, base, restorer),
                   mask := t.mask + Maskable(HandlerMask(c, action)),
                   armed := None,
                   mem := PutFrame(t.mem, base, FrameInfo(t, c, action)),
                   mapped := t.mapped + {FirstPage(base), LastPage(base)}))
  }

  function Deliver(t: Thread, c: Cause): Outcome
    requires t.Wf() && c.Wf()
  {
    if !(1 <= c.signal <= 64) || !c.actions[c.signal - 1].handler.UserFn? then Refused(t)
    else
      var action := c.actions[c.signal - 1];
      var u := t.(ctx := Rewound(t.ctx, c, action));
      if Restorer(c, action).None? then Refused(u)
      else if HasFlag(action.flags, SA_ONSTACK) && t.alt.sp == 0 then Refused(u.(pending := t.pending + {c.signal}))
      else if t.alt.Holds(t.ctx.sp) then
        Refused(if c.isFault then u else u.(pending := t.pending + {c.signal}))
      else PlaceFrame(u, c, action, Restorer(c, action).value)
  }

  /** A pending signal that may be taken: SIGKILL and SIGSTOP pass every mask. */
  predicate Deliverable(t: Thread, sig: int) {
    1 <= sig <= 64 && sig in t.pending && (sig !in t.mask || sig == SIGKILL || sig == SIGSTOP)
  }

  /** A signal taken for delivery is no longer pending; faults never were. */
  function Taken(t: Thread, c: Cause): Thread {
    if c.isFault then t else t.(pending := t.pending - {c.signal})
  }

  /** SIGURG is not even tried while there is no alternate stack. */
  predicate PutOff(t: Thread, c: Cause) {
    !c.isFault && c.signal == SIGURG && t.alt.sp == 0
  }

  /** A fault, or a pending signal at the end of a system call: taken, and delivered if possible. */
  function Receive(t: Thread, c: Cause): Outcome
    requires t.Wf() && c.Wf()
  {
    if PutOff(t, c) then Refused(Taken(t, c).(pending := Taken(t, c).pending + {c.signal}))
    else Deliver(Taken(t, c), c)
  }

  // ---------------------------------------------------------------- sigreturn

  /** What a frame brings back: mode bits of pstate are cleared, FP control words have 32 bits. */
  function Restored(ctx: Context): (r: Context)
    requires ctx.Wf()
    ensures r.Wf()
  {
    ctx.(pstate := ctx.pstate - ctx.pstate % 32, fpsr := ctx.fpsr % LIMIT32, fpcr := ctx.fpcr % LIMIT32)
  }

  function ReadWord(m: Mem, a: int): Word {
    Pow256Values();
    Load(m, a, 8)
  }

  function ReadHalf(m: Mem, a: int): (w: Word)
    ensures w < LIMIT32
  {
    Pow256Values();
    Load(m, a, 4)
  }

  function ReadVector(m: Mem, a: int): Vector {
    Pow256Values();
    Load(m, a, 16)
  }

  /** The registers in the frame at `base`; vector and FP registers only if the record has its magic. */
  function ReadContext(m: Mem, base: int, ctx: Context): (r: Context)
    requires ctx.Wf()
    ensures r.Wf()
  {
    var pstate := ReadWord(m, base + 576);
    var general := ctx.(x := seq(31, i requires 0 <= i < 31 => ReadWord(m, base + 312 + 8 * i)),
                        sp := ReadWord(m, base + 560),
                        pc := ReadWord(m, base + 568),
                        pstate := if pstate % 32 != 0 then pstate - pstate % 32 else pstate);
    if ReadHalf(m, base + 584) != FPSIMD_MAGIC then general
    else
      general.(fpsr := ReadHalf(m, base + 592), fpcr := ReadHalf(m, base + 596),
               q := seq(32, i requires 0 <= i < 32 => ReadVector(m, base + 600 + 16 * i)))
  }

  function Sigreturn(t: Thread): Option<Thread>
    requires t.ctx.Wf()
  {
    var base := t.ctx.sp;
    if FirstPage(base) !in t.mapped || LastPage(base) !in t.mapped then None
    else
      Some(t.(ctx := ReadContext(t.mem, base, t.ctx),
              mask := Maskable(Decode(ReadWord(t.mem, base + 168)))))
  }

  // ---------------------------------------------------------------- what a frame means

  lemma ReadsField(m: Mem, base: int, f: Info, k: nat)
    requires f.Wf() && FrameHolds(m, base, f) && k < FIELDS
    ensures Load(m, base + Off(k), Size(k)) == Value(k, f)
  {
    assert FieldHeld(m, base, f, k);
  }

  lemma ReadsGeneral(m: Mem, base: int, f: Info, i: nat)
    requires f.Wf() && FrameHolds(m, base, f) && i < 31
    ensures ReadWord(m, base + 312 + 8 * i) == f.ctx.x[i]
  {
    ReadsField(m, base, f, 9 + i);
  }

  lemma ReadsVector(m: Mem, base: int, f: Info, i: nat)
    requires f.Wf() && FrameHolds(m, base, f) && i < 32
    ensures ReadVector(m, base + 600 + 16 * i) == f.ctx.q[i]
  {
    ReadsField(m, base, f, 47 + i);
  }

  lemma ReadsSpecial(m: Mem, base: int, f: Info)
    requires f.Wf() && FrameHolds(m, base, f)
    ensures ReadWord(m, base + 560) == f.ctx.sp && ReadWord(m, base + 568) == f.ctx.pc
    ensures ReadWord(m, base + 576) == f.ctx.pstate && ReadWord(m, base + 168) == f.sigmask
  {
    ReadsField(m, base, f, 40);
    ReadsField(m, base, f, 41);
    ReadsField(m, base, f, 42);
    ReadsField(m, base, f, 7);
  }

  lemma ReadsFpsimd(m: Mem, base: int, f: Info)
    requires f.Wf() && FrameHolds(m, base, f)
    ensures ReadHalf(m, base + 584) == FPSIMD_MAGIC
    ensures ReadHalf(m, base + 592) == f.ctx.fpsr % LIMIT32 && ReadHalf(m, base + 596) == f.ctx.fpcr % LIMIT32
  {
    ReadsField(m, base, f, 43);
    ReadsField(m, base, f, 45);
    ReadsField(m, base, f, 46);
  }

  /** Sigreturn reads the saved context back, whatever the registers are by then. */
  lemma ReadContextRestores(m: Mem, base: int, f: Info, ctx: Context)
    requires f.Wf() && FrameHolds(m, base, f) && ctx.Wf()
    ensures ReadContext(m, base, ctx) == Restored(f.ctx)
  {
    ReadsSpecial(m, base, f);
    ReadsFpsimd(m, base, f);
    forall i: nat | i < 31
      ensures ReadWord(m, base + 312 + 8 * i) == f.ctx.x[i]
    {
      ReadsGeneral(m, base, f, i);
    }
    forall i: nat | i < 32
      ensures ReadVector(m, base + 600 + 16 * i) == f.ctx.q[i]
    {
      ReadsVector(m, base, f, i);
    }
    assert ReadContext(m, base, ctx).x == f.ctx.x;
    assert ReadContext(m, base, ctx).q == f.ctx.q;
  }

  /** A frame with everything that sigreturn needs. */
  ghost predicate Live(t: Thread, base: int, ctx: Context, mask: set<int>) {
    && ctx.Wf() && Signals(mask)
    && FirstPage(base) in t.mapped && LastPage(base) in t.mapped
    && exists f: Info :: f.Wf() && f.ctx == ctx && f.sigmask == Encode(mask) && FrameHolds(t.mem, base, f)
  }

  lemma SigreturnRestores(t: Thread, ctx: Context, mask: set<int>)
    requires t.ctx.Wf() && Live(t, t.ctx.sp, ctx, mask)
    ensures Sigreturn(t) == Some(t.(ctx := Restored(ctx), mask := Maskable(mask)))
  {
    var f: Info :| f.Wf() && f.ctx == ctx && f.sigmask == Encode(mask) && FrameHolds(t.mem, t.ctx.sp, f);
    ReadContextRestores(t.mem, t.ctx.sp, f, t.ctx);
    ReadsSpecial(t.mem, t.ctx.sp, f);
    DecodeEncode(mask);
  }

  /** The context that the frame of a delivery saves. */
  function SavedContext(t: Thread, c: Cause): Context
    requires t.Wf() && c.Wf() && 1 <= c.signal <= 64
  {
    Rewound(t.ctx, c, c.actions[c.signal - 1])
  }

  /** Where the frame of a delivery lies. */
  function DeliveryBase(t: Thread, c: Cause): int
    requires t.Wf() && c.Wf() && 1 <= c.signal <= 64
  {
    FrameBase(StackTop(t, c.actions[c.signal - 1]))
  }

  /** A delivery leaves a live frame, changes no other byte, and starts the handler below it. */
  lemma DeliveryMakesLive(t: Thread, c: Cause)
    requires t.Wf() && c.Wf() && Deliver(t, c).Delivered?
    ensures var u := Deliver(t, c).thread;
            && Live(u, DeliveryBase(t, c), SavedContext(t, c), SavedMask(t))
            && SameBut(u.mem, t.mem, DeliveryBase(t, c), SIGFRAME_SIZE)
            && u.ctx.sp == DeliveryBase(t, c)
  {
    var action := c.actions[c.signal - 1];
    var u := t.(ctx := Rewound(t.ctx, c, action));
    PutFrameHolds(u.mem, DeliveryBase(t, c), FrameInfo(u, c, action));
  }

  /**
   Whatever the handler does to the registers, to the mask and to memory outside the frame,
   returning with the stack pointer at the frame restores the context and the mask from before.
   */
  lemma ReturnUndoesDelivery(t: Thread, c: Cause, later: Thread)
    requires t.Wf() && c.Wf() && Deliver(t, c).Delivered?
    requires later.ctx.Wf() && later.ctx.sp == DeliveryBase(t, c)
    requires SameBytes(later.mem, Deliver(t, c).thread.mem, later.ctx.sp, SIGFRAME_SIZE)
    requires Deliver(t, c).thread.mapped <= later.mapped
    ensures Sigreturn(later) == Some(later.(ctx := Restored(SavedContext(t, c)), mask := Maskable(SavedMask(t))))
  {
    DeliveryMakesLive(t, c);
    LiveKept(Deliver(t, c).thread, later, later.ctx.sp, SavedContext(t, c), SavedMask(t));
    SigreturnRestores(later, SavedContext(t, c), SavedMask(t));
  }

  lemma LiveKept(t: Thread, u: Thread, base: int, ctx: Context, mask: set<int>)
    requires Live(t, base, ctx, mask) && t.mapped <= u.mapped && SameBytes(u.mem, t.mem, base, SIGFRAME_SIZE)
    ensures Live(u, base, ctx, mask)
  {
    var f: Info :| f.Wf() && f.ctx == ctx && f.sigmask == Encode(mask) && FrameHolds(t.mem, base, f);
    FrameKept(t.mem, u.mem, base, f);
  }

  /** What a return restores is what was saved, from user mode with 32-bit control words. */
  predicate Exact(ctx: Context) {
    ctx.pstate % 32 == 0 && ctx.fpsr < LIMIT32 && ctx.fpcr < LIMIT32
  }

  lemma ExactIsRestored(ctx: Context, c: Cause, action: Action)
    requires ctx.Wf() && Exact(ctx)
    ensures Restored(Rewound(ctx, c, action)) == Rewound(ctx, c, action)
  {
  }

  /** From user mode, with 32-bit control words and no armed mask, nothing at all is lost. */
  lemma ReturnIsExact(t: Thread, c: Cause, later: Thread)
    requires t.Wf() && c.Wf() && Deliver(t, c).Delivered? && t.armed.None?
    requires Exact(t.ctx)
    requires later.ctx.Wf() && later.ctx.sp == DeliveryBase(t, c)
    requires SameBytes(later.mem, Deliver(t, c).thread.mem, later.ctx.sp, SIGFRAME_SIZE)
    requires Deliver(t, c).thread.mapped <= later.mapped
    ensures Sigreturn(later) == Some(later.(ctx := SavedContext(t, c), mask := t.mask))
  {
    ReturnUndoesDelivery(t, c, later);
    ExactIsRestored(t.ctx, c, c.actions[c.signal - 1]);
    assert Maskable(t.mask) == t.mask;
  }

  // ---------------------------------------------------------------- where frames go

  /** All bytes of a frame lie on the two pages that were checked. */
  lemma FrameOnCheckedPages(base: int, a: int)
    requires base <= a < base + SIGFRAME_SIZE
    ensures PageOf(a) == FirstPage(base) || PageOf(a) == LastPage(base)
  {
  }

  /** A frame on the alternate stack stays above its lower end exactly if there is room for the rounding. */
  lemma AltFrameFitsExactly(alt: Alt)
    requires alt.Top() < WORD_LIMIT && alt.size >= SIGFRAME_SIZE
    ensures alt.sp <= FrameBase(alt.Top()) <==> alt.size >= SIGFRAME_SIZE + alt.Top() % 16
    ensures FrameBase(alt.Top()) + SIGFRAME_SIZE <= alt.Top()
  {
    var low := alt.Top() - SIGFRAME_SIZE;
    assert (alt.Top() + WORD_LIMIT - SIGFRAME_SIZE) % WORD_LIMIT == low;
    assert low % 16 == alt.Top() % 16;
  }

  /** An alternate stack of exactly the frame size whose frame starts below it. */
  lemma AltFrameCanMissItsStack()
    ensures exists alt: Alt :: alt.Top() < WORD_LIMIT && alt.size >= SIGFRAME_SIZE && FrameBase(alt.Top()) < alt.sp
  {
    var alt := Alt(4104, SIGFRAME_SIZE);
    AltFrameFitsExactly(alt);
  }

  /** While the stack pointer is on the alternate stack nothing is written and an asynchronous signal stays pending. */
  lemma NothingWrittenOnAlt(t: Thread, c: Cause)
    requires t.Wf() && c.Wf() && t.alt.Holds(t.ctx.sp)
    ensures Deliver(t, c).Refused? && Deliver(t, c).thread.mem == t.mem
    ensures Deliver(t, c).thread.mask == t.mask && Deliver(t, c).thread.armed == t.armed
    ensures 1 <= c.signal <= 64 && c.actions[c.signal - 1].handler.UserFn?
            && Restorer(c, c.actions[c.signal - 1]).Some? && !c.isFault ==>
              c.signal in Deliver(t, c).thread.pending
  {
  }

  /** A signal that needs the alternate stack before there is one stays pending. */
  lemma WaitsForAlt(t: Thread, c: Cause)
    requires t.Wf() && c.Wf() && t.alt.sp == 0
    requires 1 <= c.signal <= 64 && c.actions[c.signal - 1].handler.UserFn?
    requires HasFlag(c.actions[c.signal - 1].flags, SA_ONSTACK) && Restorer(c, c.actions[c.signal - 1]).Some?
    ensures Deliver(t, c).Refused? && c.signal in Deliver(t, c).thread.pending
    ensures Deliver(t, c).thread.mem == t.mem
  {
  }

  // ---------------------------------------------------------------- what becomes of a signal

  predicate NoHandler(c: Cause)
    requires c.Wf()
  {
    !(1 <= c.signal <= 64) || !c.actions[c.signal - 1].handler.UserFn?
  }

  predicate NoRestorer(c: Cause)
    requires c.Wf() && !NoHandler(c)
  {
    Restorer(c, c.actions[c.signal - 1]).None?
  }

  /** The handler wants an alternate stack that is not there, or the thread is on it already. */
  predicate MustWait(t: Thread, c: Cause)
    requires c.Wf() && !NoHandler(c)
  {
    (HasFlag(c.actions[c.signal - 1].flags, SA_ONSTACK) && t.alt.sp == 0) || t.alt.Holds(t.ctx.sp)
  }

  /** One of the pages for the frame cannot be mapped. */
  predicate NoRoom(t: Thread, c: Cause)
    requires t.Wf() && c.Wf() && !NoHandler(c)
  {
    FirstPage(DeliveryBase(t, c)) !in c.mappable || LastPage(DeliveryBase(t, c)) !in c.mappable
  }

  /** The signal can be delivered only later. */
  predicate Waits(t: Thread, c: Cause)
    requires t.Wf() && c.Wf()
  {
    PutOff(t, c) || (!NoHandler(c) && !NoRestorer(c) && MustWait(t, c))
  }

  /** The signal is dropped: no handler, no way back from one, or no room for its frame. */
  predicate Lost(t: Thread, c: Cause)
    requires t.Wf() && c.Wf()
  {
    !PutOff(t, c) && (NoHandler(c) || NoRestorer(c) || (!MustWait(t, c) && NoRoom(t, c)))
  }

  /**
   What becomes of a pending signal that is taken: it is delivered, or pending again, or lost, one of
   the three, and which one can be told before; no other signal is touched.
   */
  lemma FateExactly(t: Thread, c: Cause)
    requires t.Wf() && c.Wf() && !c.isFault && c.signal in t.pending
    ensures Receive(t, c).Delivered? <==> !Waits(t, c) && !Lost(t, c)
    ensures Receive(t, c).Refused? ==> (c.signal in Receive(t, c).thread.pending <==> Waits(t, c))
    ensures Receive(t, c).Refused? && c.signal !in Receive(t, c).thread.pending <==> Lost(t, c)
    ensures Receive(t, c).thread.pending == if Waits(t, c) then t.pending else t.pending - {c.signal}
  {
    if !NoHandler(c) {
      SameBase(t, c);
    }
    if Waits(t, c) {
      assert t.pending - {c.signal} + {c.signal} == t.pending;
    }
  }

  lemma SameBase(t: Thread, c: Cause)
    requires t.Wf() && c.Wf() && 1 <= c.signal <= 64
    ensures var u := Taken(t, c).(ctx := SavedContext(t, c));
            FrameBase(StackTop(u, c.actions[c.signal - 1])) == DeliveryBase(t, c)
  {
  }

  /** A thread with nothing mapped and one signal pending. */
  function Bare(sig: int): (t: Thread)
    ensures t.Wf()
  {
    Thread(Context(seq(31, _ => 0), 0x10000, 0, 0, 0, 0, seq(32, _ => 0)), {}, None, {sig}, Alt(0, 0), map[], {})
  }

  /** A handler for every signal, with or without a way back. */
  function Handled(sig: nat, restorer: Word): (c: Cause)
    requires sig < LIMIT32
    ensures c.Wf()
  {
    Cause(sig, 0, false, true, seq(64, _ => Action(UserFn(4096), 0, {}, restorer)), None, {})
  }

  /**
   A pending, unblocked signal with a handler that is lost: when there is no trampoline to return by,
   and when the page for its frame cannot be mapped.
   */
  lemma SignalsCanBeLost(sig: nat)
    requires 1 <= sig <= 64 && sig != SIGURG
    ensures Deliverable(Bare(sig), sig)
    ensures !NoHandler(Handled(sig, 0)) && Receive(Bare(sig), Handled(sig, 0)).Refused?
            && sig !in Receive(Bare(sig), Handled(sig, 0)).thread.pending
    ensures !NoHandler(Handled(sig, 8)) && !NoRestorer(Handled(sig, 8))
            && Receive(Bare(sig), Handled(sig, 8)).Refused?
            && sig !in Receive(Bare(sig), Handled(sig, 8)).thread.pending
  {
    FateExactly(Bare(sig), Handled(sig, 0));
    FateExactly(Bare(sig), Handled(sig, 8));
  }

  /**
   A refused delivery is not without effect: it leaves the registers alone exactly if the handler
   does not ask for an interrupted system call to be restarted.
   */
  lemma RefusalKeepsRegistersExactly(t: Thread, c: Cause)
    requires t.Wf() && c.Wf() && Deliver(t, c).Refused?
    ensures Deliver(t, c).thread.ctx == t.ctx <==>
            !(1 <= c.signal <= 64 && c.actions[c.signal - 1].handler.UserFn?
              && Restarts(t.ctx, c, c.actions[c.signal - 1]))
    ensures Deliver(t, c).thread.mem == t.mem && Deliver(t, c).thread.mask == t.mask
  {
    if 1 <= c.signal <= 64 && c.actions[c.signal - 1].handler.UserFn? {
      RewoundMoves(t.ctx, c, c.actions[c.signal - 1]);
    }
  }

  lemma RewoundMoves(ctx: Context, c: Cause, action: Action)
    requires ctx.Wf()
    ensures Rewound(ctx, c, action) == ctx <==> !Restarts(ctx, c, action)
  {
    assert (ctx.pc + WORD_LIMIT - 4) % WORD_LIMIT == if ctx.pc >= 4 then ctx.pc - 4 else ctx.pc + WORD_LIMIT - 4;
  }

  /** Delivery and return keep a thread well formed: no mask ever holds SIGKILL or SIGSTOP. */
  lemma DeliverWf(t: Thread, c: Cause)
    requires t.Wf() && c.Wf()
    ensures Deliver(t, c).thread.Wf() && Deliver(t, c).thread.alt == t.alt
    ensures t.mapped <= Deliver(t, c).thread.mapped
  {
  }

  /** Taking the signal first changes nothing but what is pending. */
  lemma ReceiveWf(t: Thread, c: Cause)
    requires t.Wf() && c.Wf()
    ensures Receive(t, c).thread.Wf() && Receive(t, c).thread.alt == t.alt && t.mapped <= Receive(t, c).thread.mapped
  {
    DeliverWf(Taken(t, c), c);
  }

  lemma ReceiveRefusalKeeps(t: Thread, c: Cause)
    requires t.Wf() && c.Wf() && Receive(t, c).Refused?
    ensures Receive(t, c).thread.mem == t.mem && Receive(t, c).thread.mask == t.mask
    ensures Receive(t, c).thread.ctx.sp == t.ctx.sp
  {
    if !PutOff(t, c) {
      RefusalKeepsRegistersExactly(Taken(t, c), c);
    }
  }

  lemma ReceiptMakesLive(t: Thread, c: Cause)
    requires t.Wf() && c.Wf() && Receive(t, c).Delivered?
    ensures var u := Receive(t, c).thread;
            && Live(u, DeliveryBase(t, c), SavedContext(t, c), SavedMask(t))
            && SameBut(u.mem, t.mem, DeliveryBase(t, c), SIGFRAME_SIZE)
            && u.ctx.sp == DeliveryBase(t, c)
  {
    DeliveryMakesLive(Taken(t, c), c);
  }

  // ---------------------------------------------------------------- the kernel's steps on a thread

  /** A user thread as the kernel updates it. */
  class UserThread {
    var ctx: Context
    var mask: set<int>
    var armed: Option<set<int>>
    var pending: set<int>
    var alt: Alt
    var mem: Mem
    var mapped: set<int>

    function View(): Thread
      reads this
    {
      Thread(ctx, mask, armed, pending, alt, mem, mapped)
    }

    constructor (t: Thread)
      ensures View() == t
    {
      ctx, mask, armed, pending := t.ctx, t.mask, t.armed, t.pending;
      alt, mem, mapped := t.alt, t.mem, t.mapped;
    }

    /** Clear the area of the frame and write its fields one after the other. */
    method WriteFrame(base: int, info: Info)
      requires info.Wf()
      modifies `mem
      ensures mem == PutFrame(old(mem), base, info)
    {
      mem := Zero(mem, base, SIGFRAME_SIZE);
      var k := 0;
      while k < FIELDS
        invariant 0 <= k <= FIELDS
        invariant mem == Written(Zero(old(mem), base, SIGFRAME_SIZE), base, info, k)
      {
        mem := Store(mem, base + Off(k), Size(k), Value(k, info));
        k := k + 1;
      }
    }

    /** Take the mask to be saved, disarming a suspend mask. */
    method TakeSavedMask() returns (saved: set<int>)
      modifies `armed
      ensures saved == SavedMask(old(View())) && armed.None?
    {
      if armed.Some? {
        saved := armed.value;
      } else {
        saved := mask;
      }
      armed := None;
    }

    method EnterHandler(c: Cause, action: Action, restorer: Word) returns (delivered: bool)
      requires View().Wf() && c.Wf() && action.handler.UserFn?
      modifies this
      ensures PlaceFrame(old(View()), c, action, restorer) ==
              if delivered then Delivered(View()) else Refused(View())
    {
      var top: int := if WantsAlt(alt, action) then alt.Top() else ctx.sp;
      var base := FrameBase(top);
      if FirstPage(base) !in c.mappable {
        return false;
      }
      mapped := mapped + {FirstPage(base)};
      if LastPage(base) !in c.mappable {
        return false;
      }
      mapped := mapped + {LastPage(base)};
      var saved := TakeSavedMask();
      WriteFrame(base, Info(c.signal, c.isFault, c.faultAddr, alt.sp, alt.size, top != ctx.sp, Encode(saved), ctx));
      ctx := HandlerContext(ctx, c, action, base, restorer);
      if !HasFlag(action.flags, SA_NODEFER) {
        mask := mask + Maskable({c.signal});
      }
      mask := mask + Maskable(action.mask);
      assert mask == old(mask) + Maskable(HandlerMask(c, action));
      assert mapped == old(mapped) + {FirstPage(base), LastPage(base)};
      return true;
    }

    /** try_deliver_signal: true if the thread is to go on in its handler. */
    method TryDeliverSignal(c: Cause) returns (delivered: bool)
      requires View().Wf() && c.Wf()
      modifies this
      ensures Deliver(old(View()), c) == if delivered then Delivered(View()) else Refused(View())
    {
      if c.signal < 1 || c.signal > 64 {
        return false;
      }
      var action := c.actions[c.signal - 1];
      if !action.handler.UserFn? {
        return false;
      }
      if HasFlag(action.flags, SA_RESTART) && c.inSyscall && Interrupted(ctx.x[0]) {
        ctx := ctx.(pc := (ctx.pc + WORD_LIMIT - 4) % WORD_LIMIT);
      }
      var restorer := Restorer(c, action);
      if restorer.None? {
        return false;
      }
      if HasFlag(action.flags, SA_ONSTACK) && alt.sp == 0 {
        pending := pending + {c.signal};
        return false;
      }
      if alt.Holds(ctx.sp) {
        if !c.isFault {
          pending := pending + {c.signal};
        }
        return false;
      }
      delivered := EnterHandler(c, action, restorer.value);
    }

    /** A fault, or a pending signal taken at the end of a system call. */
    method ReceiveSignal(c: Cause) returns (delivered: bool)
      requires View().Wf() && c.Wf()
      modifies this
      ensures Receive(old(View()), c) == if delivered then Delivered(View()) else Refused(View())
    {
      if !c.isFault {
        pending := pending - {c.signal};
        if c.signal == SIGURG && alt.sp == 0 {
          pending := pending + {c.signal};
          return false;
        }
      }
      delivered := TryDeliverSignal(c);
    }

    method ReadGeneral(base: int) returns (x: seq<Word>)
      ensures |x| == 31 && forall i :: 0 <= i < 31 ==> x[i] == ReadWord(mem, base + 312 + 8 * i)
    {
      x := [];
      while |x| < 31
        invariant |x| <= 31 && forall i :: 0 <= i < |x| ==> x[i] == ReadWord(mem, base + 312 + 8 * i)
      {
        x := x + [ReadWord(mem, base + 312 + 8 * |x|)];
      }
    }

    method ReadVectors(base: int) returns (q: seq<Vector>)
      ensures |q| == 32 && forall i :: 0 <= i < 32 ==> q[i] == ReadVector(mem, base + 600 + 16 * i)
    {
      q := [];
      while |q| < 32
        invariant |q| <= 32 && forall i :: 0 <= i < |q| ==> q[i] == ReadVector(mem, base + 600 + 16 * i)
      {
        q := q + [ReadVector(mem, base + 600 + 16 * |q|)];
      }
    }

    /** Read the registers of the frame at `base` one by one. */
    method ReadFrame(base: int)
      requires ctx.Wf()
      modifies `ctx
      ensures ctx == ReadContext(mem, base, old(ctx))
    {
      var x := ReadGeneral(base);
      var pstate := ReadWord(mem, base + 576);
      if pstate % 32 != 0 {
        pstate := pstate - pstate % 32;
      }
      ctx := ctx.(x := x, sp := ReadWord(mem, base + 560), pc := ReadWord(mem, base + 568), pstate := pstate);
      if ReadHalf(mem, base + 584) == FPSIMD_MAGIC {
        var q := ReadVectors(base);
        ctx := ctx.(fpsr := ReadHalf(mem, base + 592), fpcr := ReadHalf(mem, base + 596), q := q);
        assert ctx.q == ReadContext(mem, base, old(ctx)).q;
      }
      assert ctx.x == ReadContext(mem, base, old(ctx)).x;
    }

    /**
     do_rt_sigreturn: it succeeds exactly if both pages of the frame are there, and from every live
     frame it brings back the saved registers and the saved mask and changes nothing else.
     */
    method DoRtSigreturn() returns (ok: bool)
      requires ctx.Wf()
      modifies this
      ensures ok <==> FirstPage(old(ctx.sp)) in mapped && LastPage(old(ctx.sp)) in mapped
      ensures !ok ==> View() == old(View())
      ensures forall saved: Context, signals: set<int> :: Live(old(View()), old(ctx.sp), saved, signals) ==>
                ok && View() == old(View()).(ctx := Restored(saved), mask := Maskable(signals))
      ensures Sigreturn(old(View())) == if ok then Some(View()) else None
    {
      ghost var before := View();
      var base: int := ctx.sp;
      if FirstPage(base) !in mapped {
        return false;
      }
      if LastPage(base) != FirstPage(base) && LastPage(base) !in mapped {
        return false;
      }
      var saved := Decode(ReadWord(mem, base + 168));
      ReadFrame(base);
      mask := Maskable(saved);
      ok := true;
      forall c: Context, m: set<int> | Live(before, base, c, m)
        ensures View() == before.(ctx := Restored(c), mask := Maskable(m))
      {
        SigreturnRestores(before, c, m);
      }
    }
  }
}
