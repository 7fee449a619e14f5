/**
 Runs of a user thread through nested deliveries and returns, over its normal stack and an alternate
 stack. Live frames are listed from the outermost in.
 */
module SignalNesting {
  import opened Prelude
  import opened Words
  import opened ByteMemory
  import opened SignalFrame
  import opened SignalDelivery

  /** The normal stack grows down from `hi` and stays above `lo`. */
  datatype Region = Region(lo: int, hi: int)

  /** A live frame and what it is to restore. No step reads it. */
  datatype Saved = Saved(base: int, ctx: Context, mask: set<int>, onAlt: bool)

  datatype World = World(t: Thread, frames: seq<Saved>, stack: Region)

  datatype Step =
    | User(after: Thread)
    | Signal(cause: Cause)
    | Accept(sig: int)
    | Return

  /** The stack pointer is on the normal stack, below all frames. */
  predicate Reach(sp: int, frames: seq<Saved>, stack: Region) {
    && stack.lo <= sp <= stack.hi
    && forall j :: 0 <= j < |frames| ==> !frames[j].onAlt && sp <= frames[j].base
  }

  predicate InAlt(frames: seq<Saved>) {
    frames != [] && frames[|frames| - 1].onAlt
  }

  /** User code keeps the stack pointer on the stack it runs on, below the innermost frame. */
  predicate Placed(sp: int, alt: Alt, frames: seq<Saved>, stack: Region) {
    if InAlt(frames) then alt.sp <= sp <= frames[|frames| - 1].base else Reach(sp, frames, stack)
  }

  function TheAction(c: Cause): Action
    requires c.Wf() && 1 <= c.signal <= 64
  {
    c.actions[c.signal - 1]
  }

  /** The alternate stack lies apart from the normal one and has room for the rounding of a frame. */
  predicate StacksOk(alt: Alt, stack: Region) {
    && 0 <= stack.lo <= stack.hi < WORD_LIMIT && alt.Top() < WORD_LIMIT
    && (alt.sp != 0 ==> stack.hi <= alt.sp || alt.Top() <= stack.lo)
    && (alt.size >= SIGFRAME_SIZE ==> alt.size >= SIGFRAME_SIZE + alt.Top() % 16)
  }

  /**
   User code leaves live frames alone and unmaps nothing, and sets another alternate stack only while
   it is not on the one there is; signals may become pending meanwhile. A pending signal is taken
   for delivery, or by user code that waits for it. A frame finds room on the normal stack.
   */
  ghost predicate Enabled(w: World, s: Step)
    requires w.t.Wf()
  {
    match s
    case User(after) =>
      && after.Wf() && w.t.mapped <= after.mapped && w.t.pending <= after.pending
      && (after.alt == w.t.alt || (!InAlt(w.frames) && StacksOk(after.alt, w.stack)))
      && Placed(after.ctx.sp, after.alt, w.frames, w.stack)
      && forall k :: 0 <= k < |w.frames| ==> SameBytes(after.mem, w.t.mem, w.frames[k].base, SIGFRAME_SIZE)
    case Signal(c) =>
      && c.Wf() && (c.isFault || Deliverable(w.t, c.signal))
      && (1 <= c.signal <= 64 && !WantsAlt(w.t.alt, TheAction(c)) ==>
            w.stack.lo + SIGFRAME_SIZE + 15 <= w.t.ctx.sp || InAlt(w.frames))
    case Accept(sig) => sig in w.t.pending
    case Return => w.frames != [] && w.t.ctx.sp == w.frames[|w.frames| - 1].base
  }

  function Next(w: World, s: Step): Option<World>
    requires w.t.Wf()
  {
    match s
    case User(after) => Some(w.(t := after))
    case Signal(c) =>
      if !c.Wf() then None
      else
        var outcome := Receive(w.t, c);
        if outcome.Refused? then Some(w.(t := outcome.thread))
        else
          Some(w.(t := outcome.thread,
                  frames := w.frames + [Saved(DeliveryBase(w.t, c), SavedContext(w.t, c), SavedMask(w.t),
                                              WantsAlt(w.t.alt, TheAction(c)))]))
    case Accept(sig) => Some(w.(t := w.t.(pending := w.t.pending - {sig})))
    case Return =>
      var back := Sigreturn(w.t);
      if back.None? || w.frames == [] then None
      else Some(w.(t := back.value, frames := w.frames[..|w.frames| - 1]))
  }

  /**
   A signal step leaves the thread as its receipt does, and adds a record exactly for a delivery; a
   signal that is accepted is no longer pending; user code changes the thread only.
   */
  lemma StepsAsTold(w: World, c: Cause, sig: int, after: Thread)
    requires w.t.Wf() && c.Wf()
    ensures var next := Next(w, Signal(c));
            && next.Some? && next.value.t == Receive(w.t, c).thread && next.value.stack == w.stack
            && (Receive(w.t, c).Refused? ==> next.value.frames == w.frames)
            && (Receive(w.t, c).Delivered? ==>
                  && |next.value.frames| == |w.frames| + 1 && next.value.frames[..|w.frames|] == w.frames
                  && next.value.frames[|w.frames|].base == next.value.t.ctx.sp)
    ensures var next := Next(w, Accept(sig));
            && next.Some? && (forall s :: s in next.value.t.pending <==> s in w.t.pending && s != sig)
            && next.value.t.(pending := w.t.pending) == w.t && next.value.(t := w.t) == w
    ensures Next(w, User(after)).Some? && Next(w, User(after)).value.t == after
            && Next(w, User(after)).value.(t := w.t) == w
  {
    if Receive(w.t, c).Delivered? {
      ReceiptMakesLive(w.t, c);
    }
  }

  // ---------------------------------------------------------------- the invariant

  predicate Extent(f: Saved, alt: Alt, stack: Region) {
    if f.onAlt then alt.sp != 0 && alt.sp <= f.base && f.base + SIGFRAME_SIZE <= alt.Top()
    else stack.lo <= f.base && f.base + SIGFRAME_SIZE <= f.ctx.sp
  }

  ghost predicate FrameOk(w: World, k: nat)
    requires k < |w.frames|
  {
    var f := w.frames[k];
    && Live(w.t, f.base, f.ctx, f.mask)
    && Extent(f, w.t.alt, w.stack)
    && Reach(f.ctx.sp, w.frames[..k], w.stack)
  }

  ghost predicate Inv(w: World) {
    && w.t.Wf() && StacksOk(w.t.alt, w.stack)
    && Placed(w.t.ctx.sp, w.t.alt, w.frames, w.stack)
    && forall k: nat {:trigger FrameOk(w, k)} :: k < |w.frames| ==> FrameOk(w, k)
  }

  /** Two live frames share no byte. */
  predicate Apart(f: Saved, g: Saved) {
    f.base + SIGFRAME_SIZE <= g.base || g.base + SIGFRAME_SIZE <= f.base
  }

  lemma LiveFramesApart(w: World, j: nat, k: nat)
    requires Inv(w) && j < k < |w.frames|
    ensures Apart(w.frames[j], w.frames[k])
  {
    assert FrameOk(w, j) && FrameOk(w, k);
    assert w.frames[..k][j] == w.frames[j];
  }

  /** On the alternate stack, the kernel sees that the thread is there. */
  lemma InAltIsSeen(w: World)
    requires Inv(w) && InAlt(w.frames)
    ensures w.t.alt.Holds(w.t.ctx.sp)
  {
    assert FrameOk(w, |w.frames| - 1);
  }

  /**
   While the thread runs on the alternate stack no frame is written, and an asynchronous signal with
   a handler and a way back from it stays pending.
   */
  lemma NoFrameOverAlt(w: World, s: Step)
    requires Inv(w) && s.Signal? && Enabled(w, s) && InAlt(w.frames)
    ensures Receive(w.t, s.cause).Refused?
    ensures Next(w, s).Some? && Next(w, s).value.t.mem == w.t.mem && Next(w, s).value.frames == w.frames
    ensures !s.cause.isFault && !NoHandler(s.cause) && !NoRestorer(s.cause) ==>
              s.cause.signal in Next(w, s).value.t.pending
  {
    InAltIsSeen(w);
    NothingWrittenOnAlt(Taken(w.t, s.cause), s.cause);
    if !s.cause.isFault {
      FateExactly(w.t, s.cause);
    }
  }

  lemma UserKeepsInv(w: World, s: Step)
    requires Inv(w) && s.User? && Enabled(w, s)
    ensures Inv(Next(w, s).value)
  {
    var v := Next(w, s).value;
    forall k: nat | k < |v.frames|
      ensures FrameOk(v, k)
    {
      assert FrameOk(w, k);
      LiveKept(w.t, v.t, w.frames[k].base, w.frames[k].ctx, w.frames[k].mask);
    }
  }

  lemma RefusalKeepsInv(w: World, s: Step)
    requires Inv(w) && s.Signal? && Enabled(w, s) && Receive(w.t, s.cause).Refused?
    ensures Inv(Next(w, s).value)
  {
    var v := Next(w, s).value;
    ReceiveWf(w.t, s.cause);
    ReceiveRefusalKeeps(w.t, s.cause);
    forall k: nat | k < |v.frames|
      ensures FrameOk(v, k)
    {
      assert FrameOk(w, k);
      LiveKept(w.t, v.t, w.frames[k].base, w.frames[k].ctx, w.frames[k].mask);
    }
  }

  /** Only from the normal stack is a frame placed, and then below all others or on the alternate stack. */
  lemma NewFrame(w: World, c: Cause)
    requires Inv(w) && Enabled(w, Signal(c)) && Receive(w.t, c).Delivered?
    ensures !InAlt(w.frames)
    ensures var f := Saved(DeliveryBase(w.t, c), SavedContext(w.t, c), SavedMask(w.t), WantsAlt(w.t.alt, TheAction(c)));
            && Extent(f, w.t.alt, w.stack) && f.ctx.sp == w.t.ctx.sp
            && Placed(f.base, w.t.alt, w.frames + [f], w.stack)
  {
    if InAlt(w.frames) {
      NoFrameOverAlt(w, Signal(c));
    }
    if WantsAlt(w.t.alt, TheAction(c)) {
      AltFrameFitsExactly(w.t.alt);
    }
  }

  /** A new frame shares no byte with the frames that are live already. */
  lemma NewFrameApart(w: World, c: Cause, k: nat)
    requires Inv(w) && Enabled(w, Signal(c)) && Receive(w.t, c).Delivered? && k < |w.frames|
    ensures w.frames[k].base + SIGFRAME_SIZE <= DeliveryBase(w.t, c)
            || DeliveryBase(w.t, c) + SIGFRAME_SIZE <= w.frames[k].base
  {
    NewFrame(w, c);
    assert FrameOk(w, k);
  }

  lemma DeliveryKeepsInv(w: World, s: Step)
    requires Inv(w) && s.Signal? && Enabled(w, s) && Receive(w.t, s.cause).Delivered?
    ensures Inv(Next(w, s).value)
  {
    var c := s.cause;
    var v := Next(w, s).value;
    ReceiveWf(w.t, c);
    ReceiptMakesLive(w.t, c);
    NewFrame(w, c);
    forall k: nat | k < |v.frames|
      ensures FrameOk(v, k)
    {
      assert v.frames[..k] == w.frames[..k];
      if k < |w.frames| {
        assert FrameOk(w, k);
        NewFrameApart(w, c, k);
        LiveKept(w.t, v.t, w.frames[k].base, w.frames[k].ctx, w.frames[k].mask);
      } else {
        assert w.frames[..k] == w.frames;
      }
    }
  }

  /** A return from a live frame never fails and brings back what the frame saved. */
  lemma ReturnRestores(w: World)
    requires Inv(w) && Enabled(w, Return)
    ensures var f := w.frames[|w.frames| - 1];
            && Next(w, Return).Some?
            && f.ctx.Wf()
            && Next(w, Return).value.t == w.t.(ctx := Restored(f.ctx), mask := Maskable(f.mask))
  {
    var f := w.frames[|w.frames| - 1];
    assert FrameOk(w, |w.frames| - 1);
    SigreturnRestores(w.t, f.ctx, f.mask);
  }

  lemma ReturnKeepsInv(w: World)
    requires Inv(w) && Enabled(w, Return)
    ensures Next(w, Return).Some? && Inv(Next(w, Return).value)
  {
    ReturnRestores(w);
    var v := Next(w, Return).value;
    assert FrameOk(w, |w.frames| - 1);
    forall k: nat | k < |v.frames|
      ensures FrameOk(v, k)
    {
      assert FrameOk(w, k);
      assert v.frames[..k] == w.frames[..k];
      LiveKept(w.t, v.t, w.frames[k].base, w.frames[k].ctx, w.frames[k].mask);
    }
  }

  lemma AcceptKeepsInv(w: World, s: Step)
    requires Inv(w) && s.Accept?
    ensures Inv(Next(w, s).value)
  {
    var v := Next(w, s).value;
    forall k: nat | k < |v.frames|
      ensures FrameOk(v, k)
    {
      assert FrameOk(w, k);
      LiveKept(w.t, v.t, w.frames[k].base, w.frames[k].ctx, w.frames[k].mask);
    }
  }

  lemma StepKeepsInv(w: World, s: Step)
    requires Inv(w) && Enabled(w, s)
    ensures Next(w, s).Some? && Inv(Next(w, s).value)
  {
    match s
    case User(_) => UserKeepsInv(w, s);
    case Signal(c) =>
      if Receive(w.t, c).Refused? {
        RefusalKeepsInv(w, s);
      } else {
        DeliveryKeepsInv(w, s);
      }
    case Accept(_) => AcceptKeepsInv(w, s);
    case Return => ReturnKeepsInv(w);
  }

  // ---------------------------------------------------------------- runs

  ghost predicate Follows(ws: seq<World>, ss: seq<Step>, i: nat)
    requires |ws| == |ss| + 1 && i < |ss|
  {
    ws[i].t.Wf() && Enabled(ws[i], ss[i]) && Next(ws[i], ss[i]) == Some(ws[i + 1])
  }

  /** `ws` are the states of a run of the steps `ss`. */
  ghost predicate Run(ws: seq<World>, ss: seq<Step>) {
    && |ws| == |ss| + 1 && Inv(ws[0])
    && forall i: nat {:trigger Follows(ws, ss, i)} :: i < |ss| ==> Follows(ws, ss, i)
  }

  lemma {:induction false} InvThroughout(ws: seq<World>, ss: seq<Step>, n: nat)
    requires Run(ws, ss) && n <= |ss|
    ensures Inv(ws[n])
  {
    if n > 0 {
      InvThroughout(ws, ss, n - 1);
      assert Follows(ws, ss, n - 1);
      StepKeepsInv(ws[n - 1], ss[n - 1]);
    }
  }

  /** In every run, live frames never overlap. */
  lemma FramesNeverOverlap(ws: seq<World>, ss: seq<Step>, n: nat, j: nat, k: nat)
    requires Run(ws, ss) && n <= |ss| && j < k < |ws[n].frames|
    ensures Apart(ws[n].frames[j], ws[n].frames[k])
  {
    InvThroughout(ws, ss, n);
    LiveFramesApart(ws[n], j, k);
  }

  /** Step i delivers a signal. */
  ghost predicate Delivers(ws: seq<World>, ss: seq<Step>, i: nat)
    requires |ws| == |ss| + 1 && i < |ss|
  {
    ws[i].t.Wf() && ss[i].Signal? && ss[i].cause.Wf() && Receive(ws[i].t, ss[i].cause).Delivered?
  }

  /** The frame of a delivery stays on the list, over the same outer frames, until it is returned from. */
  lemma {:induction false} FrameStays(ws: seq<World>, ss: seq<Step>, i: nat, j: nat)
    requires Run(ws, ss) && i < j <= |ss| && Delivers(ws, ss, i)
    requires forall k :: i < k <= j ==> |ws[k].frames| > |ws[i].frames|
    ensures ws[j].frames[..|ws[i].frames|] == ws[i].frames
    ensures ws[j].frames[|ws[i].frames|].ctx == SavedContext(ws[i].t, ss[i].cause)
    ensures ws[j].frames[|ws[i].frames|].mask == SavedMask(ws[i].t)
    decreases j
  {
    assert Follows(ws, ss, j - 1);
    if j > i + 1 {
      FrameStays(ws, ss, i, j - 1);
      var d := |ws[i].frames|;
      assert ws[j].frames[..d + 1] == ws[j - 1].frames[..d + 1];
      assert ws[j].frames[..d] == ws[j].frames[..d + 1][..d] && ws[j - 1].frames[..d] == ws[j - 1].frames[..d + 1][..d];
      assert ws[j].frames[d] == ws[j].frames[..d + 1][d] && ws[j - 1].frames[d] == ws[j - 1].frames[..d + 1][d];
    }
  }

  /**
   In every run, whatever deliveries and returns lie between: when the frame of a delivery is
   returned from, the thread has the context and the mask from before the delivery, and the frames
   that were live then are the live ones.
   */
  lemma UnwindingRestores(ws: seq<World>, ss: seq<Step>, i: nat, j: nat)
    requires Run(ws, ss) && i < j < |ss| && Delivers(ws, ss, i)
    requires forall k :: i < k <= j ==> |ws[k].frames| > |ws[i].frames|
    requires ss[j].Return? && |ws[j].frames| == |ws[i].frames| + 1
    ensures ws[j + 1].frames == ws[i].frames
    ensures ws[j + 1].t.ctx == Restored(SavedContext(ws[i].t, ss[i].cause))
    ensures ws[j + 1].t.mask == Maskable(SavedMask(ws[i].t))
  {
    InvThroughout(ws, ss, j);
    FrameStays(ws, ss, i, j);
    assert Follows(ws, ss, j);
    ReturnRestores(ws[j]);
  }

  /** With no suspend mask armed and a context from user mode, it is exactly the original. */
  lemma UnwindingIsExact(ws: seq<World>, ss: seq<Step>, i: nat, j: nat)
    requires Run(ws, ss) && i < j < |ss| && Delivers(ws, ss, i)
    requires forall k :: i < k <= j ==> |ws[k].frames| > |ws[i].frames|
    requires ss[j].Return? && |ws[j].frames| == |ws[i].frames| + 1
    requires ws[i].t.armed.None? && Exact(ws[i].t.ctx)
    ensures ws[j + 1].t.ctx == SavedContext(ws[i].t, ss[i].cause) && ws[j + 1].t.mask == ws[i].t.mask
  {
    UnwindingRestores(ws, ss, i, j);
    ExactIsRestored(ws[i].t.ctx, ss[i].cause, TheAction(ss[i].cause));
    assert Maskable(ws[i].t.mask) == ws[i].t.mask;
  }

  // ---------------------------------------------------------------- signals over runs

  /** Step k ends the wait of a pending signal: user code waited for it, it is delivered, or lost. */
  ghost predicate Settles(ws: seq<World>, ss: seq<Step>, k: nat, sig: int)
    requires |ws| == |ss| + 1 && k < |ss|
  {
    || ss[k] == Accept(sig)
    || (Delivers(ws, ss, k) && ss[k].cause.signal == sig && |ws[k + 1].frames| == |ws[k].frames| + 1)
    || (ss[k].Signal? && ss[k].cause.signal == sig && ws[k].t.Wf() && ss[k].cause.Wf() && Lost(ws[k].t, ss[k].cause))
  }

  lemma PendingStep(ws: seq<World>, ss: seq<Step>, k: nat, sig: int)
    requires Run(ws, ss) && k < |ss| && sig in ws[k].t.pending
    ensures sig in ws[k + 1].t.pending || Settles(ws, ss, k, sig)
  {
    assert Follows(ws, ss, k);
    if ss[k].Signal? {
      var t, c := ws[k].t, ss[k].cause;
      if c.isFault {
        FaultKeepsPending(t, c);
      } else {
        FateExactly(t, c);
      }
    }
  }

  lemma FaultKeepsPending(t: Thread, c: Cause)
    requires t.Wf() && c.Wf() && c.isFault
    ensures t.pending <= Receive(t, c).thread.pending
  {
  }

  /**
   In every run a pending signal stays pending until user code waits for it, it is delivered, or it
   is lost for one of the three reasons.
   */
  lemma {:induction false} SignalsNeverVanish(ws: seq<World>, ss: seq<Step>, i: nat, j: nat, sig: int)
    requires Run(ws, ss) && i <= j <= |ss| && sig in ws[i].t.pending
    ensures sig in ws[j].t.pending || exists k: nat :: i <= k < j && Settles(ws, ss, k, sig)
    decreases j - i
  {
    if i < j {
      PendingStep(ws, ss, i, sig);
      if !Settles(ws, ss, i, sig) {
        SignalsNeverVanish(ws, ss, i + 1, j, sig);
      }
    }
  }
}
