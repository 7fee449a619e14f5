/** When a handler starts, and what it finds in registers and on its stack. */
module SignalEntry {
  import opened Prelude
  import opened Words
  import opened ByteMemory
  import opened SignalFrame
  import opened SignalDelivery

  /** Bit 27 of the flags asks for the alternate stack; one that is too small does not count. */
  predicate TakesAlt(t: Thread, a: Action) {
    a.flags / 0x800_0000 % 2 == 1 && t.alt.sp != 0 && t.alt.size >= 1120
  }

  /** The 16-byte boundary that leaves 1120 bytes below the top of the stack the handler runs on. */
  function HandlerSp(t: Thread, a: Action): int {
    var top := if TakesAlt(t, a) then t.alt.sp + t.alt.size else t.ctx.sp;
    var low := if top >= 1120 then top - 1120 else top - 1120 + WORD_LIMIT;
    low / 16 * 16
  }

  /** Bit 28 of the flags asks for a system call to be restarted that says EINTR or ERESTARTSYS. */
  predicate Restarting(t: Thread, c: Cause, a: Action)
    requires t.Wf()
  {
    a.flags / 0x1000_0000 % 2 == 1 && c.inSyscall && (t.ctx.x[0] == WORD_LIMIT - 4 || t.ctx.x[0] == WORD_LIMIT - 512)
  }

  lemma HandlerSpIs(t: Thread, c: Cause)
    requires t.Wf() && c.Wf() && 1 <= c.signal <= 64
    ensures HandlerSp(t, c.actions[c.signal - 1]) == DeliveryBase(t, c)
  {
    var a := c.actions[c.signal - 1];
    var top := StackTop(t, a);
    assert top == if TakesAlt(t, a) then t.alt.sp + t.alt.size else t.ctx.sp;
    assert (top + WORD_LIMIT - 1120) % WORD_LIMIT == if top >= 1120 then top - 1120 else top - 1120 + WORD_LIMIT;
  }

  lemma PagesAre(base: nat)
    ensures FirstPage(base) == base / 4096 * 4096 && LastPage(base) == (base + 1119) / 4096 * 4096
  {
  }

  // ---------------------------------------------------------------- when a handler starts

  /** There is a handler, and a way back from it. */
  predicate CanReturn(c: Cause)
    requires c.Wf()
  {
    && 1 <= c.signal <= 64 && c.actions[c.signal - 1].handler.UserFn?
    && (c.actions[c.signal - 1].restorer != 0 || c.trampoline.Some?)
  }

  /** The alternate stack is asked for and not there, or in use. */
  predicate AltInTheWay(t: Thread, a: Action) {
    || (a.flags / 0x800_0000 % 2 == 1 && t.alt.sp == 0)
    || (t.alt.sp != 0 && t.alt.sp <= t.ctx.sp < t.alt.sp + t.alt.size)
  }

  /**
   A handler starts exactly if it can return, the alternate stack is not in the way, and the first and
   the last page of its 1120 bytes can be mapped.
   */
  lemma StartsExactly(t: Thread, c: Cause)
    requires t.Wf() && c.Wf()
    ensures Deliver(t, c).Delivered? <==>
            && CanReturn(c) && !AltInTheWay(t, c.actions[c.signal - 1])
            && (var sp := HandlerSp(t, c.actions[c.signal - 1]);
                sp / 4096 * 4096 in c.mappable && (sp + 1119) / 4096 * 4096 in c.mappable)
  {
    if CanReturn(c) {
      HandlerSpIs(t, c);
      PagesAre(HandlerSp(t, c.actions[c.signal - 1]));
      StartsIfMapped(t, c);
    }
  }

  lemma StartsIfMapped(t: Thread, c: Cause)
    requires t.Wf() && c.Wf() && CanReturn(c)
    ensures Deliver(t, c).Delivered? <==>
            && !AltInTheWay(t, c.actions[c.signal - 1])
            && FirstPage(DeliveryBase(t, c)) in c.mappable && LastPage(DeliveryBase(t, c)) in c.mappable
  {
  }

  /**
   A signal that is not delivered: the program counter moves back by four exactly for a system call
   that is to be restarted, everything else but the pending signals and the mapped pages stays, and the
   signal is pending afterwards exactly if it was, or if it waits for the alternate stack.
   */
  lemma RefusalDoes(t: Thread, c: Cause)
    requires t.Wf() && c.Wf() && Deliver(t, c).Refused?
    ensures var u := Deliver(t, c).thread;
            && u.ctx.(pc := t.ctx.pc) == t.ctx && u.mem == t.mem && u.mask == t.mask && u.armed == t.armed
            && u.alt == t.alt
            && u.ctx.pc == (if 1 <= c.signal <= 64 && c.actions[c.signal - 1].handler.UserFn?
                              && Restarting(t, c, c.actions[c.signal - 1])
                            then (if t.ctx.pc >= 4 then t.ctx.pc - 4 else t.ctx.pc - 4 + WORD_LIMIT)
                            else t.ctx.pc)
    ensures var u := Deliver(t, c).thread;
            forall s :: s in u.pending <==> s in t.pending || (s == c.signal && WaitsAgain(t, c))
  {
  }

  /** A refused delivery maps the first page of the frame exactly if only the last one cannot be mapped. */
  lemma RefusalMaps(t: Thread, c: Cause)
    requires t.Wf() && c.Wf() && Deliver(t, c).Refused?
    ensures var u := Deliver(t, c).thread;
            if CanReturn(c) && !AltInTheWay(t, c.actions[c.signal - 1])
               && HandlerSp(t, c.actions[c.signal - 1]) / 4096 * 4096 in c.mappable
            then u.mapped == t.mapped + {HandlerSp(t, c.actions[c.signal - 1]) / 4096 * 4096}
            else u.mapped == t.mapped
  {
    if 1 <= c.signal <= 64 {
      HandlerSpIs(t, c);
      PagesAre(HandlerSp(t, c.actions[c.signal - 1]));
    }
  }

  /** An asynchronous signal in the way of the alternate stack waits; a fault only if there is none yet. */
  predicate WaitsAgain(t: Thread, c: Cause)
    requires c.Wf()
  {
    && CanReturn(c) && AltInTheWay(t, c.actions[c.signal - 1])
    && (!c.isFault || (c.actions[c.signal - 1].flags / 0x800_0000 % 2 == 1 && t.alt.sp == 0))
  }

  // ---------------------------------------------------------------- what is in the registers

  /** The outcome of a delivery. */
  lemma DeliveredIs(t: Thread, c: Cause)
    requires t.Wf() && c.Wf() && Deliver(t, c).Delivered?
    ensures CanReturn(c)
    ensures var a := c.actions[c.signal - 1];
            var restorer := Restorer(c, a);
            && restorer.Some? && 0 <= HandlerSp(t, a) < WORD_LIMIT
            && Deliver(t, c).thread.ctx
               == HandlerContext(Rewound(t.ctx, c, a), c, a, HandlerSp(t, a), restorer.value)
  {
    HandlerSpIs(t, c);
  }

  lemma ContextOfHandler(ctx: Context, c: Cause, a: Action, sp: Word, restorer: Word)
    requires ctx.Wf() && a.handler.UserFn? && c.signal < LIMIT32
    ensures var r := HandlerContext(ctx, c, a, sp, restorer);
            && r.pc == a.handler.addr && r.sp == sp && r.x[0] == c.signal && r.x[30] == restorer
            && (a.flags / 4 % 2 == 1 ==> r.x[1] == sp && (sp + 128 < WORD_LIMIT ==> r.x[2] == sp + 128))
            && (forall i :: (if a.flags / 4 % 2 == 1 then 3 else 1) <= i < 30 ==> r.x[i] == ctx.x[i])
            && r.q == ctx.q && r.pstate == ctx.pstate && r.fpsr == ctx.fpsr && r.fpcr == ctx.fpcr
  {
  }

  /**
   Wherever a handler starts: the program counter is its address, the link register its way back, the
   stack pointer its frame, x0 the signal, with bit 2 of the flags x1 and x2 the signal information and
   the context; no other register has changed.
   */
  lemma HandlerStarts(t: Thread, c: Cause)
    requires t.Wf() && c.Wf() && Deliver(t, c).Delivered?
    ensures CanReturn(c)
    ensures var r, a := Deliver(t, c).thread.ctx, c.actions[c.signal - 1];
            && r.Wf() && r.pc == a.handler.addr && r.sp == HandlerSp(t, a) && r.x[0] == c.signal
            && (a.restorer != 0 ==> r.x[30] == a.restorer) && (a.restorer == 0 ==> c.trampoline == Some(r.x[30]))
            && (a.flags / 4 % 2 == 1 ==> r.x[1] == r.sp && (r.sp + 128 < WORD_LIMIT ==> r.x[2] == r.sp + 128))
            && (forall i :: (if a.flags / 4 % 2 == 1 then 3 else 1) <= i < 30 ==> r.x[i] == t.ctx.x[i])
            && r.q == t.ctx.q && r.pstate == t.ctx.pstate && r.fpsr == t.ctx.fpsr && r.fpcr == t.ctx.fpcr
  {
    DeliveredIs(t, c);
    var a := c.actions[c.signal - 1];
    ContextOfHandler(Rewound(t.ctx, c, a), c, a, HandlerSp(t, a), Restorer(c, a).value);
  }

  /**
   While a handler runs the signals of its action are blocked too, and the signal itself unless bit 30 of
   the flags is set, but never 9 and 19. The suspend mask is disarmed.
   */
  lemma HandlerBlocks(t: Thread, c: Cause)
    requires t.Wf() && c.Wf() && Deliver(t, c).Delivered?
    ensures var u, a := Deliver(t, c).thread, c.actions[c.signal - 1];
            && (forall s :: s in u.mask <==>
                            || s in t.mask
                            || (s != 9 && s != 19
                                && (s in a.mask || (s == c.signal && a.flags / 0x4000_0000 % 2 == 0))))
            && u.armed == None && u.pending == t.pending && u.alt == t.alt
  {
  }

  /** The pages with the first and the last byte of the frame are mapped, and no others. */
  lemma HandlerMaps(t: Thread, c: Cause)
    requires t.Wf() && c.Wf() && Deliver(t, c).Delivered?
    ensures var sp := HandlerSp(t, c.actions[c.signal - 1]);
            Deliver(t, c).thread.mapped == t.mapped + {sp / 4096 * 4096, (sp + 1119) / 4096 * 4096}
  {
    HandlerSpIs(t, c);
    PagesAre(HandlerSp(t, c.actions[c.signal - 1]));
  }

  // ---------------------------------------------------------------- what is on the stack

  /** The frame that a delivery writes. */
  ghost function InfoOf(t: Thread, c: Cause): Info
    requires t.Wf() && c.Wf() && 1 <= c.signal <= 64
  {
    var a := c.actions[c.signal - 1];
    FrameInfo(t.(ctx := Rewound(t.ctx, c, a)), c, a)
  }

  lemma InfoIs(t: Thread, c: Cause)
    requires t.Wf() && c.Wf() && 1 <= c.signal <= 64
    ensures Saves(InfoOf(t, c), t, c)
  {
  }

  /** What the frame says of the signal, the stack, the mask and the context. */
  ghost predicate Saves(f: Info, t: Thread, c: Cause)
    requires t.Wf() && c.Wf() && 1 <= c.signal <= 64
  {
    var a := c.actions[c.signal - 1];
    && f.Wf() && f.signal == c.signal && f.isFault == c.isFault && f.faultAddr == c.faultAddr
    && f.altSp == t.alt.sp && f.altSize == t.alt.size
    && (f.onAlt <==> TakesAlt(t, a) && t.alt.sp + t.alt.size != t.ctx.sp)
    && f.sigmask == Encode(SavedMask(t)) && f.ctx.(pc := t.ctx.pc) == t.ctx
    && f.ctx.pc == (if !Restarting(t, c, a) then t.ctx.pc
                    else if t.ctx.pc >= 4 then t.ctx.pc - 4 else t.ctx.pc - 4 + WORD_LIMIT)
  }

  lemma DeliveredFrame(t: Thread, c: Cause) returns (f: Info)
    requires t.Wf() && c.Wf() && Deliver(t, c).Delivered?
    ensures var sp := HandlerSp(t, c.actions[c.signal - 1]);
            && Saves(f, t, c) && Deliver(t, c).thread.mem == PutFrame(t.mem, sp, f)
            && FrameHolds(Deliver(t, c).thread.mem, sp, f)
  {
    HandlerSpIs(t, c);
    InfoIs(t, c);
    f := InfoOf(t, c);
    PutFrameHolds(t.mem, HandlerSp(t, c.actions[c.signal - 1]), f);
  }

  lemma SignalAt(m: Mem, base: int, f: Info)
    requires f.Wf() && FrameHolds(m, base, f)
    ensures Load(m, base, 4) == f.signal && Load(m, base + 4, 4) == 0
    ensures Load(m, base + 8, 4) == if f.isFault then 1 else 0
    ensures Load(m, base + 16, 8) == f.faultAddr && Load(m, base + 304, 8) == f.faultAddr
  {
    ReadsField(m, base, f, 0);
    ReadsField(m, base, f, 1);
    ReadsField(m, base, f, 2);
    ReadsField(m, base, f, 3);
    ReadsField(m, base, f, 8);
  }

  lemma StackAt(m: Mem, base: int, f: Info)
    requires f.Wf() && FrameHolds(m, base, f)
    ensures Load(m, base + 144, 8) == f.altSp && Load(m, base + 160, 8) == f.altSize
    ensures Load(m, base + 152, 4) == if f.onAlt then 1 else 0
  {
    ReadsField(m, base, f, 4);
    ReadsField(m, base, f, 5);
    ReadsField(m, base, f, 6);
  }

  lemma MaskAt(m: Mem, base: int, f: Info, mask: set<int>)
    requires f.Wf() && FrameHolds(m, base, f) && Signals(mask) && f.sigmask == Encode(mask)
    ensures var w := Load(m, base + 168, 8); forall i: nat :: i < 64 ==> (Bit(w, i) <==> i + 1 in mask)
  {
    ReadsField(m, base, f, 7);
    forall i: nat | i < 64
      ensures Bit(f.sigmask, i) <==> i + 1 in mask
    {
      EncodeBits(mask, 1, 64, i);
    }
  }

  lemma GeneralAt(m: Mem, base: int, f: Info)
    requires f.Wf() && FrameHolds(m, base, f)
    ensures forall i :: 0 <= i < 31 ==> Load(m, base + 312 + 8 * i, 8) == f.ctx.x[i]
  {
    forall i | 0 <= i < 31
      ensures Load(m, base + 312 + 8 * i, 8) == f.ctx.x[i]
    {
      ReadsGeneral(m, base, f, i);
    }
  }

  lemma VectorsAt(m: Mem, base: int, f: Info)
    requires f.Wf() && FrameHolds(m, base, f)
    ensures forall i :: 0 <= i < 32 ==> Load(m, base + 600 + 16 * i, 16) == f.ctx.q[i]
  {
    forall i | 0 <= i < 32
      ensures Load(m, base + 600 + 16 * i, 16) == f.ctx.q[i]
    {
      ReadsVector(m, base, f, i);
    }
  }

  lemma RecordAt(m: Mem, base: int, f: Info)
    requires f.Wf() && FrameHolds(m, base, f)
    ensures Load(m, base + 584, 4) == 0x4650_8001 && Load(m, base + 588, 4) == 528 && Load(m, base + 1112, 8) == 0
    ensures Load(m, base + 592, 4) == f.ctx.fpsr % 0x1_0000_0000
    ensures Load(m, base + 596, 4) == f.ctx.fpcr % 0x1_0000_0000
  {
    ReadsField(m, base, f, 43);
    ReadsField(m, base, f, 44);
    ReadsField(m, base, f, 45);
    ReadsField(m, base, f, 46);
    ReadsField(m, base, f, 79);
  }

  /**
   The frame tells the signal: its number, no error, 1 for a fault, the address of the fault; the
   alternate stack and whether the frame is on it; the mask to come back, signal n as bit n - 1.
   */
  lemma FrameTellsSignal(t: Thread, c: Cause)
    requires t.Wf() && c.Wf() && Deliver(t, c).Delivered?
    ensures var m, sp := Deliver(t, c).thread.mem, HandlerSp(t, c.actions[c.signal - 1]);
            && Load(m, sp, 4) == c.signal && Load(m, sp + 4, 4) == 0
            && Load(m, sp + 8, 4) == (if c.isFault then 1 else 0)
            && Load(m, sp + 16, 8) == c.faultAddr && Load(m, sp + 304, 8) == c.faultAddr
            && Load(m, sp + 144, 8) == t.alt.sp && Load(m, sp + 160, 8) == t.alt.size
            && Load(m, sp + 152, 4) == (if TakesAlt(t, c.actions[c.signal - 1]) && t.alt.sp + t.alt.size != t.ctx.sp
                                        then 1 else 0)
    ensures var m, sp := Deliver(t, c).thread.mem, HandlerSp(t, c.actions[c.signal - 1]);
            var mask, w := if t.armed.Some? then t.armed.value else t.mask, Load(m, sp + 168, 8);
            forall i: nat :: i < 64 ==> (Bit(w, i) <==> i + 1 in mask)
  {
    var f := DeliveredFrame(t, c);
    var m, sp := Deliver(t, c).thread.mem, HandlerSp(t, c.actions[c.signal - 1]);
    SignalAt(m, sp, f);
    StackAt(m, sp, f);
    MaskAt(m, sp, f, SavedMask(t));
  }

  /** The frame tells the interrupted context, the program counter moved back if a system call is restarted. */
  lemma FrameTellsContext(t: Thread, c: Cause)
    requires t.Wf() && c.Wf() && Deliver(t, c).Delivered?
    ensures var m, sp := Deliver(t, c).thread.mem, HandlerSp(t, c.actions[c.signal - 1]);
            && (forall i :: 0 <= i < 31 ==> Load(m, sp + 312 + 8 * i, 8) == t.ctx.x[i])
            && Load(m, sp + 560, 8) == t.ctx.sp && Load(m, sp + 576, 8) == t.ctx.pstate
            && Load(m, sp + 568, 8) == (if !Restarting(t, c, c.actions[c.signal - 1]) then t.ctx.pc
                                        else if t.ctx.pc >= 4 then t.ctx.pc - 4 else t.ctx.pc - 4 + WORD_LIMIT)
  {
    var f := DeliveredFrame(t, c);
    var m, sp := Deliver(t, c).thread.mem, HandlerSp(t, c.actions[c.signal - 1]);
    GeneralAt(m, sp, f);
    ReadsSpecial(m, sp, f);
  }

  /** The frame tells the vector registers, in a record with its magic number, its size and a last record. */
  lemma FrameTellsVectors(t: Thread, c: Cause)
    requires t.Wf() && c.Wf() && Deliver(t, c).Delivered?
    ensures var m, sp := Deliver(t, c).thread.mem, HandlerSp(t, c.actions[c.signal - 1]);
            && Load(m, sp + 584, 4) == 0x4650_8001 && Load(m, sp + 588, 4) == 528 && Load(m, sp + 1112, 8) == 0
            && Load(m, sp + 592, 4) == t.ctx.fpsr % 0x1_0000_0000
            && Load(m, sp + 596, 4) == t.ctx.fpcr % 0x1_0000_0000
            && forall i :: 0 <= i < 32 ==> Load(m, sp + 600 + 16 * i, 16) == t.ctx.q[i]
  {
    var f := DeliveredFrame(t, c);
    var m, sp := Deliver(t, c).thread.mem, HandlerSp(t, c.actions[c.signal - 1]);
    RecordAt(m, sp, f);
    VectorsAt(m, sp, f);
  }

  /** Offset a lies between fields of the frame. */
  predicate InGap(a: int) {
    12 <= a < 16 || 24 <= a < 144 || 156 <= a < 160 || 176 <= a < 304
  }

  lemma {:induction false} ZeroIsZero(m: Mem, a: int, n: nat, i: int)
    requires a <= i < a + n
    ensures At(Zero(m, a, n), i) == 0
    decreases n
  {
    if i > a {
      ZeroIsZero(m[a := 0], a + 1, n - 1, i);
    } else {
      ZeroOutside(m[a := 0], a + 1, n - 1);
    }
  }

  lemma {:induction false} GapStays(m: Mem, base: int, f: Info, k: nat, a: int)
    requires f.Wf() && k <= FIELDS && InGap(a)
    ensures At(Written(m, base, f, k), base + a) == At(m, base + a)
    decreases k
  {
    if k > 0 {
      GapStays(m, base, f, k - 1, a);
      assert !(Off(k - 1) <= a < Off(k - 1) + Size(k - 1));
      StoreOutside(Written(m, base, f, k - 1), base + Off(k - 1), Size(k - 1), Value(k - 1, f));
    }
  }

  /** All other bytes of the frame are zero; bytes outside it are as they were. */
  lemma FrameIsClean(t: Thread, c: Cause, a: int)
    requires t.Wf() && c.Wf() && Deliver(t, c).Delivered?
    ensures var m, sp := Deliver(t, c).thread.mem, HandlerSp(t, c.actions[c.signal - 1]);
            && (InGap(a) ==> At(m, sp + a) == 0)
            && (!(0 <= a < 1120) ==> At(m, sp + a) == At(t.mem, sp + a))
  {
    var f := DeliveredFrame(t, c);
    var sp := HandlerSp(t, c.actions[c.signal - 1]);
    PutFrameHolds(t.mem, sp, f);
    if InGap(a) {
      ZeroIsZero(t.mem, sp, SIGFRAME_SIZE, sp + a);
      GapStays(Zero(t.mem, sp, SIGFRAME_SIZE), sp, f, FIELDS, a);
    }
  }

  // ---------------------------------------------------------------- taking a signal

  /**
   Taking a pending signal: number 23 goes back to wait while there is no alternate stack, any other is
   pending no longer when it is delivered; a fault leaves what is pending alone.
   */
  lemma ReceiptIs(t: Thread, c: Cause)
    requires t.Wf() && c.Wf()
    ensures !c.isFault && c.signal == 23 && t.alt.sp == 0 ==>
              Receive(t, c) == Refused(t.(pending := t.pending + {c.signal}))
    ensures c.isFault ==> Receive(t, c) == Deliver(t, c)
    ensures !c.isFault && (c.signal != 23 || t.alt.sp != 0) ==>
              Receive(t, c) == Deliver(t.(pending := t.pending - {c.signal}), c)
  {
    assert t.pending - {c.signal} + {c.signal} == t.pending + {c.signal};
  }
}
