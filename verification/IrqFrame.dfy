/**
 The assembly of the two IRQ entry points: registers are pushed onto the interrupted stack, the
 handler may put another thread's stack pointer in place, and the registers are popped again. The
 instructions are data for a small interpreter, in the order of the source; both entry points
 consist of the same instructions.
 */
module IrqFrame {
  import opened Prelude
  import opened Words

  /** General registers, the two halves of vector registers, and system registers. */
  datatype Reg =
    | X(i: nat) | QLo(i: nat) | QHi(i: nat)
    | FPCR | FPSR | TPIDR_EL0 | SP_EL0 | ELR_EL1 | SPSR_EL1

  type Regs = map<Reg, Word>
  type Mem = map<int, Word>

  datatype Cpu = Cpu(regs: Regs, sp: int, mem: Mem)

  predicate Named(r: Reg) {
    match r
    case X(i) => i < 31
    case QLo(i) => i < 32
    case QHi(i) => i < 32
    case _ => true
  }

  /** Registers and memory words that were never written read as zero. */
  function Get(regs: Regs, r: Reg): Word {
    if r in regs then regs[r] else 0
  }

  function Peek(m: Mem, at: int): Word {
    if at in m then m[at] else 0
  }

  /** bic with #0x100000: clear bit 20, the IL bit of SPSR. */
  function ClearIL(w: Word): (r: Word)
    ensures (r == w || r + 0x10_0000 == w) && r / 0x10_0000 % 2 == 0
  {
    if w / 0x10_0000 % 2 == 1 then w - 0x10_0000 else w
  }

  /** Register `r` has the same value in both files. */
  predicate Same(a: Regs, b: Regs, r: Reg) {
    Get(a, r) == Get(b, r)
  }

  // ---------------------------------------------------------------- instructions

  /** What instructions are made of; offsets are in bytes from the stack pointer. */
  datatype Op =
    | Sp(n: int)
    | Put(r: Reg, off: int)
    | Take(r: Reg, off: int)
    | Copy(dst: Reg, src: Reg)
    | Bic(r: Reg)

  function Exec(c: Cpu, op: Op): Cpu {
    match op
    case Sp(n) => c.(sp := c.sp + n)
    case Put(r, off) => c.(mem := c.mem[c.sp + off := Get(c.regs, r)])
    case Take(r, off) => c.(regs := c.regs[r := Peek(c.mem, c.sp + off)])
    case Copy(dst, src) => c.(regs := c.regs[dst := Get(c.regs, src)])
    case Bic(r) => c.(regs := c.regs[r := ClearIL(Get(c.regs, r))])
  }

  function ExecAll(c: Cpu, ops: seq<Op>): Cpu
    decreases |ops|
  {
    if ops == [] then c else ExecAll(Exec(c, ops[0]), ops[1..])
  }

  lemma {:induction false} ExecSeq(c: Cpu, p: seq<Op>, q: seq<Op>)
    ensures ExecAll(c, p + q) == ExecAll(ExecAll(c, p), q)
    decreases |p|
  {
    if p == [] {
      assert p + q == q;
    } else {
      assert (p + q)[0] == p[0] && (p + q)[1..] == p[1..] + q;
      ExecSeq(Exec(c, p[0]), p[1..], q);
    }
  }

  function Flatten(blocks: seq<seq<Op>>): seq<Op> {
    if blocks == [] then [] else blocks[0] + Flatten(blocks[1..])
  }

  /** The states before and after each block of a program. */
  function Trace(c: Cpu, blocks: seq<seq<Op>>): (t: seq<Cpu>)
    ensures |t| == |blocks| + 1 && t[0] == c
    decreases |blocks|
  {
    if blocks == [] then [c] else [c] + Trace(ExecAll(c, blocks[0]), blocks[1..])
  }

  lemma {:induction false} TraceStep(c: Cpu, blocks: seq<seq<Op>>, k: nat)
    requires k < |blocks|
    ensures Trace(c, blocks)[k + 1] == ExecAll(Trace(c, blocks)[k], blocks[k])
    decreases k
  {
    if k > 0 {
      TraceStep(ExecAll(c, blocks[0]), blocks[1..], k - 1);
    }
  }

  lemma {:induction false} TraceRuns(c: Cpu, blocks: seq<seq<Op>>)
    ensures Trace(c, blocks)[|blocks|] == ExecAll(c, Flatten(blocks))
    decreases |blocks|
  {
    if blocks != [] {
      ExecSeq(c, blocks[0], Flatten(blocks[1..]));
      TraceRuns(ExecAll(c, blocks[0]), blocks[1..]);
    }
  }

  lemma Exec1(c: Cpu, a: Op)
    ensures ExecAll(c, [a]) == Exec(c, a)
  {
    assert [a][1..] == [];
  }

  lemma Exec2(c: Cpu, a: Op, b: Op)
    ensures ExecAll(c, [a, b]) == Exec(Exec(c, a), b)
  {
    assert [a, b][1..] == [b];
    Exec1(Exec(c, a), b);
  }

  lemma Exec3(c: Cpu, a: Op, b: Op, d: Op)
    ensures ExecAll(c, [a, b, d]) == Exec(Exec(Exec(c, a), b), d)
  {
    assert [a, b, d][1..] == [b, d];
    Exec2(Exec(c, a), b, d);
  }

  lemma Exec4(c: Cpu, a: Op, b: Op, d: Op, e: Op)
    ensures ExecAll(c, [a, b, d, e]) == Exec(Exec(Exec(Exec(c, a), b), d), e)
  {
    assert [a, b, d, e][1..] == [b, d, e];
    Exec3(Exec(c, a), b, d, e);
  }

  lemma Exec5(c: Cpu, a: Op, b: Op, d: Op, e: Op, f: Op)
    ensures ExecAll(c, [a, b, d, e, f]) == Exec(Exec(Exec(Exec(Exec(c, a), b), d), e), f)
  {
    assert [a, b, d, e, f][1..] == [b, d, e, f];
    Exec4(Exec(c, a), b, d, e, f);
  }

  lemma Exec6(c: Cpu, a: Op, b: Op, d: Op, e: Op, f: Op, g: Op)
    ensures ExecAll(c, [a, b, d, e, f, g]) == Exec(Exec(Exec(Exec(Exec(Exec(c, a), b), d), e), f), g)
  {
    assert [a, b, d, e, f, g][1..] == [b, d, e, f, g];
    Exec5(Exec(c, a), b, d, e, f, g);
  }

  /** stp xa, xb, [sp, #-16]! */
  function StpPush(a: nat, b: nat): seq<Op> { [Sp(-16), Put(X(a), 0), Put(X(b), 8)] }

  /** str xa, [sp, #-16]! */
  function StrPush(a: nat): seq<Op> { [Sp(-16), Put(X(a), 0)] }

  /** ldp xa, xb, [sp], #16 */
  function LdpPop(a: nat, b: nat): seq<Op> { [Take(X(a), 0), Take(X(b), 8), Sp(16)] }

  /** ldr xa, [sp], #16 */
  function LdrPop(a: nat): seq<Op> { [Take(X(a), 0), Sp(16)] }

  /** stp qv, qw, [sp, #off] */
  function StpQ(v: nat, w: nat, off: int): seq<Op> {
    [Put(QLo(v), off), Put(QHi(v), off + 8), Put(QLo(w), off + 16), Put(QHi(w), off + 24)]
  }

  /** ldp qv, qw, [sp, #off] */
  function LdpQ(v: nat, w: nat, off: int): seq<Op> {
    [Take(QLo(v), off), Take(QHi(v), off + 8), Take(QLo(w), off + 16), Take(QHi(w), off + 24)]
  }

  // ---------------------------------------------------------------- the code of the entry points

  /** stp q0, q1, [sp, #0]; stp q2, q3, [sp, #32]; ... stp q30, q31, [sp, #480] */
  function StoreVectors(from: nat): seq<Op>
    requires from <= 16
    decreases 16 - from
  {
    if from == 16 then [] else StpQ(2 * from, 2 * from + 1, 16 * (2 * from)) + StoreVectors(from + 1)
  }

  function LoadVectors(from: nat): seq<Op>
    requires from <= 16
    decreases 16 - from
  {
    if from == 16 then [] else LdpQ(2 * from, 2 * from + 1, 16 * (2 * from)) + LoadVectors(from + 1)
  }

  /** General registers saved in pairs after the system registers, in push order. */
  const PAIRS: seq<(nat, nat)> :=
    [(0, 1), (2, 3), (4, 5), (6, 7), (8, 9), (12, 13), (14, 15), (16, 17), (18, 19),
     (20, 21), (22, 23), (24, 25), (26, 27), (28, 29)]

  function PushPairs(pairs: seq<(nat, nat)>): seq<Op> {
    if pairs == [] then [] else StpPush(pairs[0].0, pairs[0].1) + PushPairs(pairs[1..])
  }

  /** Pops in the reverse order of the pushes. */
  function PopPairs(pairs: seq<(nat, nat)>): seq<Op> {
    if pairs == [] then [] else PopPairs(pairs[1..]) + LdpPop(pairs[0].0, pairs[0].1)
  }

  /** mrs x10, fpcr; mrs x11, fpsr; str x10, [sp, #512]; str x11, [sp, #520] */
  const SAVE_FP: seq<Op> := [Copy(X(10), FPCR), Copy(X(11), FPSR), Put(X(10), 512), Put(X(11), 520)]

  /** mrs x10, r; str x10, [sp, #-16]! */
  function SaveOne(r: Reg): seq<Op> { [Copy(X(10), r)] + StrPush(10) }

  /** mrs x10, elr_el1; mrs x11, spsr_el1; stp x10, x11, [sp, #-16]! */
  const SAVE_ELR: seq<Op> := [Copy(X(10), ELR_EL1), Copy(X(11), SPSR_EL1)] + StpPush(10, 11)

  /** The vector that was taken: an IRQ from user mode or from kernel mode. */
  datatype Entry = FromEl0 | FromEl1

  /** The save phase, block by block. */
  function SaveBlock(k: nat): seq<Op> {
    if k == 0 then StpPush(10, 11)
    else if k == 1 then [Sp(-528)]
    else if k == 2 then StoreVectors(0)
    else if k == 3 then SAVE_FP
    else if k == 4 then SaveOne(TPIDR_EL0)
    else if k == 5 then SaveOne(SP_EL0)
    else if k == 6 then SAVE_ELR
    else if k == 7 then PushPairs(PAIRS)
    else StrPush(30)
  }

  /** Both entry points run the same instructions. */
  function SaveBlocks(e: Entry): seq<seq<Op>> {
    seq(9, k requires 0 <= k => SaveBlock(k))
  }

  /** ldp x10, x11, [sp], #16; bic x11, x11, #0x100000; msr elr_el1, x10; msr spsr_el1, x11 */
  const RESTORE_ELR: seq<Op> :=
    LdpPop(10, 11) + [Bic(X(11)), Copy(ELR_EL1, X(10)), Copy(SPSR_EL1, X(11))]

  /** ldr x10, [sp], #16; msr r, x10 */
  function RestoreOne(r: Reg): seq<Op> { LdrPop(10) + [Copy(r, X(10))] }

  /** ldr x10, [sp, #512]; ldr x11, [sp, #520]; msr fpcr, x10; msr fpsr, x11 */
  const RESTORE_FP: seq<Op> := [Take(X(10), 512), Take(X(11), 520), Copy(FPCR, X(10)), Copy(FPSR, X(11))]

  /** The restore phase, block by block; the core hangs after block 2 when ELR is zero. */
  function RestoreBlock(k: nat): seq<Op> {
    if k == 0 then LdrPop(30)
    else if k == 1 then PopPairs(PAIRS)
    else if k == 2 then RESTORE_ELR
    else if k == 3 then RestoreOne(SP_EL0)
    else if k == 4 then RestoreOne(TPIDR_EL0)
    else if k == 5 then RESTORE_FP
    else if k == 6 then LoadVectors(0)
    else if k == 7 then [Sp(528)]
    else LdpPop(10, 11)
  }

  function RestoreBlocks(e: Entry): seq<seq<Op>> {
    seq(9, k requires 0 <= k => RestoreBlock(k))
  }

  // ---------------------------------------------------------------- the frame in memory

  const FRAME_BYTES: int := 832

  /** Byte offset of a saved register from the saved stack pointer. */
  function Slot(r: Reg): int {
    match r
    case X(i) =>
      if i == 30 then 0 else if i == 10 then 816 else if i == 11 then 824
      else if i < 10 then 224 - 16 * (i / 2) + 8 * (i % 2)
      else 240 - 16 * (i / 2) + 8 * (i % 2)
    case ELR_EL1 => 240
    case SPSR_EL1 => 248
    case SP_EL0 => 256
    case TPIDR_EL0 => 272
    case QLo(i) => 288 + 16 * i
    case QHi(i) => 296 + 16 * i
    case FPCR => 800
    case FPSR => 808
  }

  /** The word for register `r` in the frame at `sp`. */
  ghost predicate Held(mem: Mem, sp: int, regs: Regs, r: Reg) {
    Peek(mem, sp + Slot(r)) == Get(regs, r)
  }

  /** The frame at `sp` holds all registers. */
  ghost predicate Holds(mem: Mem, sp: int, regs: Regs) {
    forall r: Reg :: Named(r) ==> Held(mem, sp, regs, r)
  }

  /** Two memories agree outside [lo, hi). */
  ghost predicate SameOutside(a: Mem, b: Mem, lo: int, hi: int) {
    forall at :: !(lo <= at < hi) ==> Peek(a, at) == Peek(b, at)
  }

  // ---------------------------------------------------------------- saving

  lemma StpQEffect(c: Cpu, v: nat, off: int)
    ensures var d := ExecAll(c, StpQ(v, v + 1, off));
            && d == c.(mem := d.mem)
            && Peek(d.mem, c.sp + off) == Get(c.regs, QLo(v))
            && Peek(d.mem, c.sp + off + 8) == Get(c.regs, QHi(v))
            && Peek(d.mem, c.sp + off + 16) == Get(c.regs, QLo(v + 1))
            && Peek(d.mem, c.sp + off + 24) == Get(c.regs, QHi(v + 1))
            && SameOutside(d.mem, c.mem, c.sp + off, c.sp + off + 32)
  {
    Exec4(c, Put(QLo(v), off), Put(QHi(v), off + 8), Put(QLo(v + 1), off + 16), Put(QHi(v + 1), off + 24));
  }

  /** Vector `i` stored in a vector block at `base`. */
  ghost predicate VecAt(mem: Mem, base: int, regs: Regs, i: nat) {
    Peek(mem, base + 16 * i) == Get(regs, QLo(i)) && Peek(mem, base + 16 * i + 8) == Get(regs, QHi(i))
  }

  ghost predicate VecsFrom(mem: Mem, base: int, regs: Regs, from: nat) {
    forall i: nat :: 2 * from <= i < 32 ==> VecAt(mem, base, regs, i)
  }

  /** `d` differs from `c` in memory only, inside [lo, hi). */
  ghost predicate Stored(c: Cpu, d: Cpu, lo: int, hi: int) {
    d == c.(mem := d.mem) && SameOutside(d.mem, c.mem, lo, hi)
  }

  ghost predicate VecsSaved(c: Cpu, d: Cpu, from: nat) {
    Stored(c, d, c.sp + 32 * from, c.sp + 512) && VecsFrom(d.mem, c.sp, c.regs, from)
  }

  ghost predicate TwoVecsSaved(c: Cpu, d: Cpu, v: nat) {
    && Stored(c, d, c.sp + 16 * v, c.sp + 16 * v + 32)
    && VecAt(d.mem, c.sp, c.regs, v) && VecAt(d.mem, c.sp, c.regs, v + 1)
  }

  lemma VecsStored(c: Cpu, e: Cpu, d: Cpu, from: nat)
    requires from < 16 && TwoVecsSaved(c, e, 2 * from) && VecsSaved(e, d, from + 1)
    ensures VecsSaved(c, d, from)
  {
    forall i: nat | 2 * from <= i < 32
      ensures VecAt(d.mem, c.sp, c.regs, i)
    {
      if i < 2 * from + 2 {
        assert VecAt(e.mem, c.sp, c.regs, i);
      }
    }
  }

  lemma StpQVecs(c: Cpu, v: nat)
    ensures TwoVecsSaved(c, ExecAll(c, StpQ(v, v + 1, 16 * v)), v)
  {
    StpQEffect(c, v, 16 * v);
  }

  lemma {:induction false} StoreVectorsEffect(c: Cpu, from: nat)
    requires from <= 16
    ensures VecsSaved(c, ExecAll(c, StoreVectors(from)), from)
    decreases 16 - from
  {
    if from < 16 {
      var head := StpQ(2 * from, 2 * from + 1, 16 * (2 * from));
      var tail := StoreVectors(from + 1);
      StpQVecs(c, 2 * from);
      ExecSeq(c, head, tail);
      StoreVectorsEffect(ExecAll(c, head), from + 1);
      VecsStored(c, ExecAll(c, head), ExecAll(ExecAll(c, head), tail), from);
    }
  }

  /** The pair pushed k-th below `top`. */
  ghost predicate PairAt(mem: Mem, top: int, regs: Regs, pair: (nat, nat), k: nat) {
    && Peek(mem, top - 16 * k - 16) == Get(regs, X(pair.0))
    && Peek(mem, top - 16 * k - 8) == Get(regs, X(pair.1))
  }

  ghost predicate PairsSaved(c: Cpu, d: Cpu, pairs: seq<(nat, nat)>) {
    && d == c.(mem := d.mem, sp := c.sp - 16 * |pairs|)
    && SameOutside(d.mem, c.mem, d.sp, c.sp)
    && forall k :: 0 <= k < |pairs| ==> PairAt(d.mem, c.sp, c.regs, pairs[k], k)
  }

  ghost predicate PairSaved(c: Cpu, d: Cpu, a: nat, b: nat) {
    && d == c.(mem := d.mem, sp := c.sp - 16)
    && PairAt(d.mem, c.sp, c.regs, (a, b), 0)
    && SameOutside(d.mem, c.mem, d.sp, c.sp)
  }

  lemma StpPushEffect(c: Cpu, a: nat, b: nat)
    ensures PairSaved(c, ExecAll(c, StpPush(a, b)), a, b)
  {
    Exec3(c, Sp(-16), Put(X(a), 0), Put(X(b), 8));
  }

  lemma PairsStored(c: Cpu, e: Cpu, d: Cpu, pairs: seq<(nat, nat)>)
    requires pairs != [] && PairSaved(c, e, pairs[0].0, pairs[0].1) && PairsSaved(e, d, pairs[1..])
    ensures PairsSaved(c, d, pairs)
  {
    forall k | 0 <= k < |pairs|
      ensures PairAt(d.mem, c.sp, c.regs, pairs[k], k)
    {
      if k > 0 {
        assert PairAt(d.mem, e.sp, e.regs, pairs[1..][k - 1], k - 1);
      }
    }
  }

  lemma {:induction false} PushPairsEffect(c: Cpu, pairs: seq<(nat, nat)>)
    ensures PairsSaved(c, ExecAll(c, PushPairs(pairs)), pairs)
    decreases |pairs|
  {
    if pairs != [] {
      var head := StpPush(pairs[0].0, pairs[0].1);
      var tail := PushPairs(pairs[1..]);
      StpPushEffect(c, pairs[0].0, pairs[0].1);
      ExecSeq(c, head, tail);
      PushPairsEffect(ExecAll(c, head), pairs[1..]);
      PairsStored(c, ExecAll(c, head), ExecAll(ExecAll(c, head), tail), pairs);
    }
  }

  /** One system register pushed through x10. */
  ghost predicate OneSaved(c: Cpu, d: Cpu, r: Reg) {
    && d == Cpu(c.regs[X(10) := Get(c.regs, r)], c.sp - 16, d.mem)
    && Peek(d.mem, d.sp) == Get(c.regs, r)
    && SameOutside(d.mem, c.mem, d.sp, c.sp)
  }

  lemma SaveOneEffect(c: Cpu, r: Reg)
    ensures OneSaved(c, ExecAll(c, SaveOne(r)), r)
  {
    assert SaveOne(r) == [Copy(X(10), r), Sp(-16), Put(X(10), 0)];
    Exec3(c, Copy(X(10), r), Sp(-16), Put(X(10), 0));
  }

  ghost predicate FpSaved(c: Cpu, d: Cpu) {
    && d == Cpu(c.regs[X(10) := Get(c.regs, FPCR)][X(11) := Get(c.regs, FPSR)], c.sp, d.mem)
    && Peek(d.mem, c.sp + 512) == Get(c.regs, FPCR) && Peek(d.mem, c.sp + 520) == Get(c.regs, FPSR)
    && SameOutside(d.mem, c.mem, c.sp + 512, c.sp + 528)
  }

  lemma SaveFpEffect(c: Cpu)
    ensures FpSaved(c, ExecAll(c, SAVE_FP))
  {
    Exec4(c, Copy(X(10), FPCR), Copy(X(11), FPSR), Put(X(10), 512), Put(X(11), 520));
  }

  ghost predicate ElrSaved(c: Cpu, d: Cpu) {
    && d == Cpu(c.regs[X(10) := Get(c.regs, ELR_EL1)][X(11) := Get(c.regs, SPSR_EL1)], c.sp - 16, d.mem)
    && Peek(d.mem, d.sp) == Get(c.regs, ELR_EL1) && Peek(d.mem, d.sp + 8) == Get(c.regs, SPSR_EL1)
    && SameOutside(d.mem, c.mem, d.sp, c.sp)
  }

  lemma SaveElrEffect(c: Cpu)
    ensures ElrSaved(c, ExecAll(c, SAVE_ELR))
  {
    assert SAVE_ELR == [Copy(X(10), ELR_EL1), Copy(X(11), SPSR_EL1), Sp(-16), Put(X(10), 0), Put(X(11), 8)];
    Exec5(c, Copy(X(10), ELR_EL1), Copy(X(11), SPSR_EL1), Sp(-16), Put(X(10), 0), Put(X(11), 8));
  }

  ghost predicate LastSaved(c: Cpu, d: Cpu) {
    && d == c.(mem := d.mem, sp := c.sp - 16)
    && Peek(d.mem, d.sp) == Get(c.regs, X(30))
    && SameOutside(d.mem, c.mem, d.sp, c.sp)
  }

  lemma SaveLastEffect(c: Cpu)
    ensures LastSaved(c, ExecAll(c, StrPush(30)))
  {
    Exec2(c, Sp(-16), Put(X(30), 0));
  }

  /** What the k-th block of the save phase does to the machine. */
  ghost predicate SaveEffect(k: nat, c: Cpu, d: Cpu) {
    if k == 0 then PairSaved(c, d, 10, 11)
    else if k == 1 then d == c.(sp := c.sp - 528)
    else if k == 2 then VecsSaved(c, d, 0)
    else if k == 3 then FpSaved(c, d)
    else if k == 4 then OneSaved(c, d, TPIDR_EL0)
    else if k == 5 then OneSaved(c, d, SP_EL0)
    else if k == 6 then ElrSaved(c, d)
    else if k == 7 then PairsSaved(c, d, PAIRS)
    else LastSaved(c, d)
  }

  lemma SaveBlockEffect(k: nat, c: Cpu)
    requires k < 9
    ensures SaveEffect(k, c, ExecAll(c, SaveBlock(k)))
  {
    if k == 0 {
      StpPushEffect(c, 10, 11);
    } else if k == 1 {
      Exec1(c, Sp(-528));
    } else if k == 2 {
      StoreVectorsEffect(c, 0);
    } else if k == 3 {
      SaveFpEffect(c);
    } else if k == 4 {
      SaveOneEffect(c, TPIDR_EL0);
    } else if k == 5 {
      SaveOneEffect(c, SP_EL0);
    } else if k == 6 {
      SaveElrEffect(c);
    } else if k == 7 {
      PushPairsEffect(c, PAIRS);
    } else {
      SaveLastEffect(c);
    }
  }

  ghost predicate SaveStepAt(t: seq<Cpu>, k: nat)
    requires |t| == 10 && k < 9
  {
    SaveEffect(k, t[k], t[k + 1])
  }

  ghost predicate SaveTrace(t: seq<Cpu>) {
    |t| == 10 && forall k: nat {:trigger SaveStepAt(t, k)} :: k < 9 ==> SaveStepAt(t, k)
  }

  lemma SaveRuns(e: Entry, c: Cpu)
    ensures SaveTrace(Trace(c, SaveBlocks(e)))
  {
    var blocks := SaveBlocks(e);
    var t := Trace(c, blocks);
    forall k: nat | k < 9
      ensures SaveStepAt(t, k)
    {
      SaveBlockEffect(k, t[k]);
      TraceStep(c, blocks, k);
    }
  }

  /** Where the k-th block writes, relative to the interrupted stack pointer. */
  function WriteLo(k: nat): int {
    if k == 0 then -16 else if k == 1 then 0 else if k == 2 then -544 else if k == 3 then -32
    else if k == 4 then -560 else if k == 5 then -576 else if k == 6 then -592
    else if k == 7 then -816 else -832
  }

  function WriteHi(k: nat): int {
    if k == 0 || k == 1 then 0 else if k == 2 then -32 else if k == 3 then -16
    else if k == 4 then -544 else if k == 5 then -560 else if k == 6 then -576
    else if k == 7 then -592 else -816
  }

  /** The stack pointer before the k-th block, relative to the interrupted one. */
  function SpBefore(k: nat): int {
    if k == 0 then 0 else if k == 1 then -16 else if k <= 4 then -544 else if k == 5 then -560
    else if k == 6 then -576 else if k == 7 then -592 else if k == 8 then -816 else -832
  }

  /** Every block but x10 and x11 keeps the registers. */
  ghost predicate SameButScratch(a: Regs, b: Regs) {
    forall r: Reg :: r != X(10) && r != X(11) ==> Same(a, b, r)
  }

  lemma SaveStep(k: nat, c: Cpu, d: Cpu, s: int)
    requires k < 9 && SaveEffect(k, c, d) && c.sp == s + SpBefore(k)
    ensures d.sp == s + SpBefore(k + 1)
    ensures SameOutside(d.mem, c.mem, s + WriteLo(k), s + WriteHi(k))
    ensures SameButScratch(d.regs, c.regs) && (k < 3 ==> d.regs == c.regs)
  {
  }

  lemma {:induction false} SavePrefix(t: seq<Cpu>, k: nat)
    requires SaveTrace(t) && k <= 9
    ensures t[k].sp == t[0].sp + SpBefore(k)
    ensures SameButScratch(t[k].regs, t[0].regs) && (k <= 3 ==> t[k].regs == t[0].regs)
  {
    if k > 0 {
      SavePrefix(t, k - 1);
      assert SaveStepAt(t, k - 1);
      SaveStep(k - 1, t[k - 1], t[k], t[0].sp);
      forall r: Reg | r != X(10) && r != X(11)
        ensures Same(t[k].regs, t[0].regs, r)
      {
        assert Same(t[k].regs, t[k - 1].regs, r) && Same(t[k - 1].regs, t[0].regs, r);
      }
    }
  }

  /** A word written before block k, and by no later block, is still there at the end. */
  lemma {:induction false} Kept(t: seq<Cpu>, k: nat, at: int)
    requires SaveTrace(t) && k <= 9
    requires forall j: nat :: k <= j < 9 ==> !(WriteLo(j) <= at < WriteHi(j))
    ensures Peek(t[9].mem, t[0].sp + at) == Peek(t[k].mem, t[0].sp + at)
    decreases 9 - k
  {
    if k < 9 {
      SavePrefix(t, k);
      assert SaveStepAt(t, k);
      SaveStep(k, t[k], t[k + 1], t[0].sp);
      assert !(WriteLo(k) <= at < WriteHi(k));
      Kept(t, k + 1, at);
    }
  }

  /** The whole save phase writes the 832 bytes below the interrupted stack pointer. */
  lemma SaveWritesFrame(t: seq<Cpu>)
    requires SaveTrace(t)
    ensures t[9].sp == t[0].sp - FRAME_BYTES
    ensures SameOutside(t[9].mem, t[0].mem, t[9].sp, t[0].sp)
  {
    SavePrefix(t, 9);
    forall at | !(t[9].sp <= at < t[0].sp)
      ensures Peek(t[9].mem, at) == Peek(t[0].mem, at)
    {
      Kept(t, 0, at - t[0].sp);
    }
  }

  lemma HeldVector(t: seq<Cpu>, i: nat)
    requires SaveTrace(t) && i < 32
    ensures Held(t[9].mem, t[9].sp, t[0].regs, QLo(i)) && Held(t[9].mem, t[9].sp, t[0].regs, QHi(i))
  {
    SavePrefix(t, 2);
    SavePrefix(t, 9);
    assert SaveStepAt(t, 2);
    assert VecAt(t[3].mem, t[2].sp, t[2].regs, i);
    Kept(t, 3, -544 + 16 * i);
    Kept(t, 3, -536 + 16 * i);
  }

  /** The j-th pair is an even register and its successor; x10 and x11 are left out. */
  lemma PairShape(j: nat)
    requires j < 14
    ensures var a := if j < 5 then 2 * j else 2 * j + 2; PAIRS[j] == (a, a + 1)
    ensures Slot(X(PAIRS[j].0)) == 224 - 16 * j && Slot(X(PAIRS[j].0 + 1)) == 232 - 16 * j
  {
    var a := if j < 5 then 2 * j else 2 * j + 2;
    assert PAIRS[j] == (a, a + 1);
    assert a / 2 == (if j < 5 then j else j + 1) && a % 2 == 0 && (a + 1) / 2 == a / 2;
  }

  lemma PairSurvives(t: seq<Cpu>, pairs: seq<(nat, nat)>, j: nat)
    requires SaveTrace(t) && j < |pairs| <= 14 && PairsSaved(t[7], t[8], pairs)
    ensures Peek(t[9].mem, t[9].sp + 224 - 16 * j) == Get(t[7].regs, X(pairs[j].0))
    ensures Peek(t[9].mem, t[9].sp + 232 - 16 * j) == Get(t[7].regs, X(pairs[j].1))
  {
    SavePrefix(t, 7);
    SavePrefix(t, 9);
    assert PairAt(t[8].mem, t[7].sp, t[7].regs, pairs[j], j);
    Kept(t, 8, -592 - 16 * j - 16);
    Kept(t, 8, -592 - 16 * j - 8);
  }

  lemma HeldPair(t: seq<Cpu>, j: nat)
    requires SaveTrace(t) && j < 14
    ensures Held(t[9].mem, t[9].sp, t[0].regs, X(PAIRS[j].0))
    ensures Held(t[9].mem, t[9].sp, t[0].regs, X(PAIRS[j].1))
  {
    assert SaveStepAt(t, 7);
    PairSurvives(t, PAIRS, j);
    PairShape(j);
    SavePrefix(t, 7);
    assert Same(t[7].regs, t[0].regs, X(PAIRS[j].0)) && Same(t[7].regs, t[0].regs, X(PAIRS[j].1));
  }

  lemma HeldSystem(t: seq<Cpu>, r: Reg)
    requires SaveTrace(t) && !r.X? && !r.QLo? && !r.QHi?
    ensures Held(t[9].mem, t[9].sp, t[0].regs, r)
  {
    var k := if r.FPCR? || r.FPSR? then 3 else if r.TPIDR_EL0? then 4 else if r.SP_EL0? then 5 else 6;
    SavePrefix(t, k);
    SavePrefix(t, 9);
    assert SaveStepAt(t, k) && Same(t[k].regs, t[0].regs, r);
    Kept(t, k + 1, Slot(r) - FRAME_BYTES);
  }

  lemma HeldScratch(t: seq<Cpu>, i: nat)
    requires SaveTrace(t) && (i == 10 || i == 11 || i == 30)
    ensures Held(t[9].mem, t[9].sp, t[0].regs, X(i))
  {
    SavePrefix(t, 8);
    SavePrefix(t, 9);
    if i == 30 {
      assert SaveStepAt(t, 8) && Same(t[8].regs, t[0].regs, X(30));
    } else {
      assert SaveStepAt(t, 0);
      Kept(t, 1, if i == 10 then -16 else -8);
    }
  }

  /** The save phase leaves a frame that holds every register of the interrupted code. */
  lemma SaveHolds(t: seq<Cpu>)
    requires SaveTrace(t)
    ensures Holds(t[9].mem, t[9].sp, t[0].regs)
  {
    forall r: Reg | Named(r)
      ensures Held(t[9].mem, t[9].sp, t[0].regs, r)
    {
      match r
      case X(i) =>
        if i == 10 || i == 11 || i == 30 {
          HeldScratch(t, i);
        } else {
          HeldPair(t, PairOf(i));
        }
      case QLo(i) => HeldVector(t, i);
      case QHi(i) => HeldVector(t, i);
      case _ => HeldSystem(t, r);
    }
  }

  /** The position of a general register among the pushed pairs. */
  function PairOf(i: nat): (j: nat)
    requires i < 30 && i != 10 && i != 11
    ensures j < 14 && (PAIRS[j].0 == i || PAIRS[j].1 == i)
  {
    if i < 10 then i / 2 else i / 2 - 1
  }

  // ---------------------------------------------------------------- restoring

  ghost predicate PairPopped(c: Cpu, d: Cpu, a: nat, b: nat) {
    d == Cpu(c.regs[X(a) := Peek(c.mem, c.sp)][X(b) := Peek(c.mem, c.sp + 8)], c.sp + 16, c.mem)
  }

  lemma LdpPopEffect(c: Cpu, a: nat, b: nat)
    ensures PairPopped(c, ExecAll(c, LdpPop(a, b)), a, b)
  {
    Exec3(c, Take(X(a), 0), Take(X(b), 8), Sp(16));
  }

  predicate InPairs(pairs: seq<(nat, nat)>, i: nat) {
    exists j :: 0 <= j < |pairs| && (pairs[j].0 == i || pairs[j].1 == i)
  }

  /** No register is popped twice. */
  predicate DistinctPairs(pairs: seq<(nat, nat)>) {
    && (forall j :: 0 <= j < |pairs| ==> pairs[j].0 != pairs[j].1)
    && forall j, k :: 0 <= j < k < |pairs| ==>
         && pairs[j].0 != pairs[k].0 && pairs[j].0 != pairs[k].1
         && pairs[j].1 != pairs[k].0 && pairs[j].1 != pairs[k].1
  }

  lemma PairsAreDistinct()
    ensures DistinctPairs(PAIRS)
  {
    forall j | 0 <= j < |PAIRS|
      ensures PAIRS[j].0 != PAIRS[j].1
    {
      PairShape(j);
    }
    forall j, k | 0 <= j < k < |PAIRS|
      ensures && PAIRS[j].0 != PAIRS[k].0 && PAIRS[j].0 != PAIRS[k].1
              && PAIRS[j].1 != PAIRS[k].0 && PAIRS[j].1 != PAIRS[k].1
    {
      PairShape(j);
      PairShape(k);
    }
  }

  /** The pair that was pushed j-th below `top`, read back. */
  ghost predicate PairBack(regs: Regs, mem: Mem, top: int, pair: (nat, nat), j: nat) {
    && Get(regs, X(pair.0)) == Peek(mem, top - 16 * j - 16)
    && Get(regs, X(pair.1)) == Peek(mem, top - 16 * j - 8)
  }

  ghost predicate PairsPopped(c: Cpu, d: Cpu, pairs: seq<(nat, nat)>) {
    && d.mem == c.mem && d.sp == c.sp + 16 * |pairs|
    && (forall j :: 0 <= j < |pairs| ==> PairBack(d.regs, c.mem, d.sp, pairs[j], j))
    && forall r: Reg :: !(r.X? && InPairs(pairs, r.i)) ==> Same(d.regs, c.regs, r)
  }

  lemma PairsRestored(c: Cpu, e: Cpu, d: Cpu, pairs: seq<(nat, nat)>)
    requires pairs != [] && DistinctPairs(pairs)
    requires PairsPopped(c, e, pairs[1..]) && PairPopped(e, d, pairs[0].0, pairs[0].1)
    ensures PairsPopped(c, d, pairs)
  {
    forall j | 0 <= j < |pairs|
      ensures PairBack(d.regs, c.mem, d.sp, pairs[j], j)
    {
      if j > 0 {
        assert PairBack(e.regs, c.mem, e.sp, pairs[1..][j - 1], j - 1);
      }
    }
    forall r: Reg | !(r.X? && InPairs(pairs, r.i))
      ensures Same(d.regs, c.regs, r)
    {
      if r.X? {
        TailPairs(pairs, r.i);
      }
      assert Same(e.regs, c.regs, r);
    }
  }

  lemma TailPairs(pairs: seq<(nat, nat)>, i: nat)
    requires pairs != [] && !InPairs(pairs, i)
    ensures !InPairs(pairs[1..], i) && pairs[0].0 != i && pairs[0].1 != i
  {
    var rest := pairs[1..];
    forall j | 0 <= j < |rest|
      ensures rest[j].0 != i && rest[j].1 != i
    {
      assert rest[j] == pairs[j + 1];
    }
  }

  lemma {:induction false} PopPairsEffect(c: Cpu, pairs: seq<(nat, nat)>)
    requires DistinctPairs(pairs)
    ensures PairsPopped(c, ExecAll(c, PopPairs(pairs)), pairs)
    decreases |pairs|
  {
    if pairs != [] {
      var head := PopPairs(pairs[1..]);
      var tail := LdpPop(pairs[0].0, pairs[0].1);
      PopPairsEffect(c, pairs[1..]);
      ExecSeq(c, head, tail);
      LdpPopEffect(ExecAll(c, head), pairs[0].0, pairs[0].1);
      PairsRestored(c, ExecAll(c, head), ExecAll(ExecAll(c, head), tail), pairs);
    }
  }

  ghost predicate VecBack(regs: Regs, mem: Mem, base: int, i: nat) {
    Get(regs, QLo(i)) == Peek(mem, base + 16 * i) && Get(regs, QHi(i)) == Peek(mem, base + 16 * i + 8)
  }

  ghost predicate VecsLoaded(c: Cpu, d: Cpu, from: nat) {
    && d == c.(regs := d.regs)
    && (forall i: nat :: 2 * from <= i < 32 ==> VecBack(d.regs, c.mem, c.sp, i))
    && forall r: Reg :: !((r.QLo? || r.QHi?) && 2 * from <= r.i < 32) ==> Same(d.regs, c.regs, r)
  }

  ghost predicate TwoVecsLoaded(c: Cpu, d: Cpu, v: nat) {
    && d == c.(regs := d.regs)
    && VecBack(d.regs, c.mem, c.sp, v) && VecBack(d.regs, c.mem, c.sp, v + 1)
    && forall r: Reg :: !((r.QLo? || r.QHi?) && (r.i == v || r.i == v + 1)) ==> Same(d.regs, c.regs, r)
  }

  lemma LdpQVecs(c: Cpu, v: nat)
    ensures TwoVecsLoaded(c, ExecAll(c, LdpQ(v, v + 1, 16 * v)), v)
  {
    Exec4(c, Take(QLo(v), 16 * v), Take(QHi(v), 16 * v + 8),
          Take(QLo(v + 1), 16 * v + 16), Take(QHi(v + 1), 16 * v + 24));
  }

  lemma VecsRestored(c: Cpu, e: Cpu, d: Cpu, from: nat)
    requires from < 16 && TwoVecsLoaded(c, e, 2 * from) && VecsLoaded(e, d, from + 1)
    ensures VecsLoaded(c, d, from)
  {
    forall i: nat | 2 * from <= i < 32
      ensures VecBack(d.regs, c.mem, c.sp, i)
    {
      if i < 2 * from + 2 {
        assert VecBack(e.regs, c.mem, c.sp, i);
        assert Same(d.regs, e.regs, QLo(i)) && Same(d.regs, e.regs, QHi(i));
      }
    }
    forall r: Reg | !((r.QLo? || r.QHi?) && 2 * from <= r.i < 32)
      ensures Same(d.regs, c.regs, r)
    {
      assert Same(e.regs, c.regs, r) && Same(d.regs, e.regs, r);
    }
  }

  lemma VecsLoadedBySeq(c: Cpu, head: seq<Op>, tail: seq<Op>, from: nat)
    requires from < 16 && TwoVecsLoaded(c, ExecAll(c, head), 2 * from)
    requires VecsLoaded(ExecAll(c, head), ExecAll(ExecAll(c, head), tail), from + 1)
    ensures VecsLoaded(c, ExecAll(c, head + tail), from)
  {
    ExecSeq(c, head, tail);
    VecsRestored(c, ExecAll(c, head), ExecAll(ExecAll(c, head), tail), from);
  }

  lemma {:induction false} LoadVectorsEffect(c: Cpu, from: nat)
    requires from <= 16
    ensures VecsLoaded(c, ExecAll(c, LoadVectors(from)), from)
    decreases 16 - from
  {
    if from < 16 {
      var head := LdpQ(2 * from, 2 * from + 1, 16 * (2 * from));
      var tail := LoadVectors(from + 1);
      LdpQVecs(c, 2 * from);
      LoadVectorsEffect(ExecAll(c, head), from + 1);
      VecsLoadedBySeq(c, head, tail, from);
    }
  }

  ghost predicate ElrLoaded(c: Cpu, d: Cpu) {
    var elr, spsr := Peek(c.mem, c.sp), ClearIL(Peek(c.mem, c.sp + 8));
    d == Cpu(c.regs[X(10) := elr][X(11) := Peek(c.mem, c.sp + 8)][X(11) := spsr][ELR_EL1 := elr][SPSR_EL1 := spsr],
             c.sp + 16, c.mem)
  }

  lemma RestoreElrEffect(c: Cpu)
    ensures ElrLoaded(c, ExecAll(c, RESTORE_ELR))
  {
    assert RESTORE_ELR == [Take(X(10), 0), Take(X(11), 8), Sp(16), Bic(X(11)),
                           Copy(ELR_EL1, X(10)), Copy(SPSR_EL1, X(11))];
    Exec6(c, Take(X(10), 0), Take(X(11), 8), Sp(16), Bic(X(11)), Copy(ELR_EL1, X(10)), Copy(SPSR_EL1, X(11)));
  }

  ghost predicate OneLoaded(c: Cpu, d: Cpu, r: Reg) {
    d == Cpu(c.regs[X(10) := Peek(c.mem, c.sp)][r := Peek(c.mem, c.sp)], c.sp + 16, c.mem)
  }

  lemma RestoreOneEffect(c: Cpu, r: Reg)
    ensures OneLoaded(c, ExecAll(c, RestoreOne(r)), r)
  {
    assert RestoreOne(r) == [Take(X(10), 0), Sp(16), Copy(r, X(10))];
    Exec3(c, Take(X(10), 0), Sp(16), Copy(r, X(10)));
  }

  ghost predicate FpLoaded(c: Cpu, d: Cpu) {
    var fpcr, fpsr := Peek(c.mem, c.sp + 512), Peek(c.mem, c.sp + 520);
    d == c.(regs := c.regs[X(10) := fpcr][X(11) := fpsr][FPCR := fpcr][FPSR := fpsr])
  }

  lemma RestoreFpEffect(c: Cpu)
    ensures FpLoaded(c, ExecAll(c, RESTORE_FP))
  {
    Exec4(c, Take(X(10), 512), Take(X(11), 520), Copy(FPCR, X(10)), Copy(FPSR, X(11)));
  }

  lemma LdrPopEffect(c: Cpu, a: nat)
    ensures ExecAll(c, LdrPop(a)) == Cpu(c.regs[X(a) := Peek(c.mem, c.sp)], c.sp + 16, c.mem)
  {
    Exec2(c, Take(X(a), 0), Sp(16));
  }

  /** What the k-th block of the restore phase does to the machine. */
  ghost predicate RestoreEffect(k: nat, c: Cpu, d: Cpu) {
    if k == 0 then d == Cpu(c.regs[X(30) := Peek(c.mem, c.sp)], c.sp + 16, c.mem)
    else if k == 1 then PairsPopped(c, d, PAIRS)
    else if k == 2 then ElrLoaded(c, d)
    else if k == 3 then OneLoaded(c, d, SP_EL0)
    else if k == 4 then OneLoaded(c, d, TPIDR_EL0)
    else if k == 5 then FpLoaded(c, d)
    else if k == 6 then VecsLoaded(c, d, 0)
    else if k == 7 then d == c.(sp := c.sp + 528)
    else PairPopped(c, d, 10, 11)
  }

  lemma RestoreFirstBlocks(k: nat, c: Cpu)
    requires k < 4
    ensures RestoreEffect(k, c, ExecAll(c, RestoreBlock(k)))
  {
    if k == 0 {
      LdrPopEffect(c, 30);
    } else if k == 1 {
      PairsAreDistinct();
      PopPairsEffect(c, PAIRS);
    } else if k == 2 {
      RestoreElrEffect(c);
    } else {
      RestoreOneEffect(c, SP_EL0);
    }
  }

  lemma RestoreLastBlocks(k: nat, c: Cpu)
    requires 4 <= k < 9
    ensures RestoreEffect(k, c, ExecAll(c, RestoreBlock(k)))
  {
    if k == 4 {
      RestoreOneEffect(c, TPIDR_EL0);
    } else if k == 5 {
      RestoreFpEffect(c);
    } else if k == 6 {
      LoadVectorsEffect(c, 0);
    } else if k == 7 {
      Exec1(c, Sp(528));
    } else {
      LdpPopEffect(c, 10, 11);
    }
  }

  ghost predicate RestoreStepAt(t: seq<Cpu>, k: nat)
    requires |t| == 10 && k < 9
  {
    RestoreEffect(k, t[k], t[k + 1])
  }

  ghost predicate RestoreTrace(t: seq<Cpu>) {
    |t| == 10 && forall k: nat {:trigger RestoreStepAt(t, k)} :: k < 9 ==> RestoreStepAt(t, k)
  }

  lemma RestoreRuns(e: Entry, c: Cpu)
    ensures RestoreTrace(Trace(c, RestoreBlocks(e)))
  {
    var t := Trace(c, RestoreBlocks(e));
    forall k: nat | k < 9
      ensures RestoreStepAt(t, k)
    {
      TraceStep(c, RestoreBlocks(e), k);
      if k < 4 {
        RestoreFirstBlocks(k, t[k]);
      } else {
        RestoreLastBlocks(k, t[k]);
      }
    }
  }

  /** The stack pointer before the k-th block, relative to the frame. */
  function PopBefore(k: nat): int {
    if k == 0 then 0 else if k == 1 then 16 else if k == 2 then 240 else if k == 3 then 256
    else if k == 4 then 272 else if k <= 7 then 288 else if k == 8 then 816 else 832
  }

  /** The k-th block may change register r. */
  predicate Touches(k: nat, r: Reg) {
    if k == 0 then r == X(30)
    else if k == 1 then r.X? && r.i < 30 && r.i != 10 && r.i != 11
    else if k == 2 then r == X(10) || r == X(11) || r == ELR_EL1 || r == SPSR_EL1
    else if k == 3 then r == X(10) || r == SP_EL0
    else if k == 4 then r == X(10) || r == TPIDR_EL0
    else if k == 5 then r == X(10) || r == X(11) || r == FPCR || r == FPSR
    else if k == 6 then (r.QLo? || r.QHi?) && r.i < 32
    else if k == 7 then false
    else r == X(10) || r == X(11)
  }

  lemma NotInPairs(i: nat)
    requires i == 10 || i == 11 || i >= 30
    ensures !InPairs(PAIRS, i)
  {
    forall j | 0 <= j < |PAIRS|
      ensures PAIRS[j].0 != i && PAIRS[j].1 != i
    {
      PairShape(j);
    }
  }

  lemma PairsLeave(c: Cpu, d: Cpu, r: Reg)
    requires PairsPopped(c, d, PAIRS)
    ensures d.sp == c.sp + 224 && d.mem == c.mem
    ensures !Touches(1, r) ==> Same(d.regs, c.regs, r)
  {
    if r.X? && !Touches(1, r) {
      NotInPairs(r.i);
    }
  }

  lemma RestoreMoves(k: nat, c: Cpu, d: Cpu, s: int)
    requires k < 9 && RestoreEffect(k, c, d) && c.sp == s + PopBefore(k)
    ensures d.sp == s + PopBefore(k + 1) && d.mem == c.mem
  {
    if k == 1 {
      PairsLeave(c, d, X(30));
    }
  }

  lemma RestoreLeaves(k: nat, c: Cpu, d: Cpu, r: Reg)
    requires k < 9 && RestoreEffect(k, c, d) && !Touches(k, r)
    ensures Same(d.regs, c.regs, r)
  {
    if k == 1 {
      PairsLeave(c, d, r);
    }
  }

  lemma {:induction false} RestorePrefix(t: seq<Cpu>, k: nat)
    requires RestoreTrace(t) && k <= 9
    ensures t[k].sp == t[0].sp + PopBefore(k) && t[k].mem == t[0].mem
  {
    if k > 0 {
      RestorePrefix(t, k - 1);
      assert RestoreStepAt(t, k - 1);
      RestoreMoves(k - 1, t[k - 1], t[k], t[0].sp);
    }
  }

  /** A register that no block from k on touches has its final value. */
  lemma {:induction false} Final(t: seq<Cpu>, k: nat, r: Reg)
    requires RestoreTrace(t) && k <= 9
    requires forall j: nat :: k <= j < 9 ==> !Touches(j, r)
    ensures Same(t[9].regs, t[k].regs, r)
    decreases 9 - k
  {
    if k < 9 {
      assert RestoreStepAt(t, k);
      RestoreLeaves(k, t[k], t[k + 1], r);
      Final(t, k + 1, r);
    }
  }

  /** Register `r` ends up with what its slot holds; SPSR loses its IL bit. */
  ghost predicate Loaded(t: seq<Cpu>, r: Reg)
    requires |t| == 10
  {
    var w := Peek(t[0].mem, t[0].sp + Slot(r));
    Get(t[9].regs, r) == if r == SPSR_EL1 then ClearIL(w) else w
  }

  lemma LoadedVector(t: seq<Cpu>, i: nat)
    requires RestoreTrace(t) && i < 32
    ensures Loaded(t, QLo(i)) && Loaded(t, QHi(i))
  {
    RestorePrefix(t, 6);
    assert RestoreStepAt(t, 6);
    assert VecBack(t[7].regs, t[6].mem, t[6].sp, i);
    Final(t, 7, QLo(i));
    Final(t, 7, QHi(i));
  }

  lemma PairReturns(c: Cpu, d: Cpu, pairs: seq<(nat, nat)>, j: nat)
    requires j < |pairs| == 14 && PairsPopped(c, d, pairs)
    ensures Get(d.regs, X(pairs[j].0)) == Peek(c.mem, c.sp + 208 - 16 * j)
    ensures Get(d.regs, X(pairs[j].1)) == Peek(c.mem, c.sp + 216 - 16 * j)
  {
    assert PairBack(d.regs, c.mem, d.sp, pairs[j], j);
  }

  lemma FinalGeneral(t: seq<Cpu>, i: nat)
    requires RestoreTrace(t) && i < 30 && i != 10 && i != 11
    ensures Same(t[9].regs, t[2].regs, X(i))
  {
    Final(t, 2, X(i));
  }

  lemma LoadedOf(t: seq<Cpu>, pairs: seq<(nat, nat)>, j: nat, i: nat)
    requires RestoreTrace(t) && j < |pairs| == 14 && PairsPopped(t[1], t[2], pairs)
    requires i < 30 && i != 10 && i != 11
    requires || (pairs[j].0 == i && Slot(X(i)) == 224 - 16 * j)
             || (pairs[j].1 == i && Slot(X(i)) == 232 - 16 * j)
    ensures Loaded(t, X(i))
  {
    PairReturns(t[1], t[2], pairs, j);
    RestorePrefix(t, 1);
    FinalGeneral(t, i);
  }

  lemma LoadedGeneral(t: seq<Cpu>, i: nat)
    requires RestoreTrace(t) && i < 30 && i != 10 && i != 11
    ensures Loaded(t, X(i))
  {
    var j := PairOf(i);
    assert RestoreStepAt(t, 1);
    PairShape(j);
    LoadedOf(t, PAIRS, j, i);
  }

  lemma LoadedOther(t: seq<Cpu>, r: Reg)
    requires RestoreTrace(t) && !r.QLo? && !r.QHi? && (r.X? ==> r.i == 30)
    ensures Loaded(t, r)
  {
    var k := match r
      case X(_) => 0
      case ELR_EL1 => 2
      case SPSR_EL1 => 2
      case SP_EL0 => 3
      case TPIDR_EL0 => 4
      case _ => 5;
    RestorePrefix(t, k);
    assert RestoreStepAt(t, k);
    Final(t, k + 1, r);
  }

  lemma LoadedScratch(t: seq<Cpu>, i: nat)
    requires RestoreTrace(t) && (i == 10 || i == 11)
    ensures Loaded(t, X(i))
  {
    RestorePrefix(t, 8);
    assert RestoreStepAt(t, 8);
  }

  /** The restore phase brings back every register that the frame holds. */
  lemma RestoreLoads(t: seq<Cpu>, r: Reg)
    requires RestoreTrace(t) && Named(r)
    ensures Loaded(t, r)
  {
    match r
    case X(i) =>
      if i == 10 || i == 11 {
        LoadedScratch(t, i);
      } else if i == 30 {
        LoadedOther(t, r);
      } else {
        LoadedGeneral(t, i);
      }
    case QLo(i) => LoadedVector(t, i);
    case QHi(i) => LoadedVector(t, i);
    case _ => LoadedOther(t, r);
  }

  // ---------------------------------------------------------------- the two phases together

  ghost predicate Back(regs: Regs, saved: Regs, r: Reg) {
    Get(regs, r) == if r == SPSR_EL1 then ClearIL(Get(saved, r)) else Get(saved, r)
  }

  /** The registers a thread finds when it goes on: its own, SPSR with the IL bit cleared. */
  ghost predicate Resumes(regs: Regs, saved: Regs) {
    forall r: Reg {:trigger Back(regs, saved, r)} :: Named(r) ==> Back(regs, saved, r)
  }

  /** The instructions from the entry to the call of the handler. */
  function SaveFrame(e: Entry, c: Cpu): Cpu {
    ExecAll(c, Flatten(SaveBlocks(e)))
  }

  /** The instructions after the handler up to eret; a popped ELR of zero parks the core. */
  function RestoreFrame(e: Entry, c: Cpu): Option<Cpu> {
    var t := Trace(c, RestoreBlocks(e));
    if Get(t[3].regs, X(10)) == 0 then None else Some(t[9])
  }

  /** Saving pushes a frame of 832 bytes that holds all registers and writes nothing else. */
  lemma SavePhase(e: Entry, c: Cpu)
    ensures var d := SaveFrame(e, c);
            && d.sp == c.sp - FRAME_BYTES
            && Holds(d.mem, d.sp, c.regs)
            && SameOutside(d.mem, c.mem, d.sp, c.sp)
  {
    SaveRuns(e, c);
    TraceRuns(c, SaveBlocks(e));
    SaveHolds(Trace(c, SaveBlocks(e)));
    SaveWritesFrame(Trace(c, SaveBlocks(e)));
  }

  lemma RestoreResumes(t: seq<Cpu>, saved: Regs)
    requires RestoreTrace(t) && Holds(t[0].mem, t[0].sp, saved)
    ensures t[9].sp == t[0].sp + FRAME_BYTES && t[9].mem == t[0].mem && Resumes(t[9].regs, saved)
  {
    RestorePrefix(t, 9);
    forall r: Reg | Named(r)
      ensures Back(t[9].regs, saved, r)
    {
      RestoreLoads(t, r);
      assert Held(t[0].mem, t[0].sp, saved, r);
    }
  }

  lemma PoppedElr(t: seq<Cpu>)
    requires RestoreTrace(t)
    ensures Get(t[3].regs, X(10)) == Peek(t[0].mem, t[0].sp + Slot(ELR_EL1))
  {
    RestorePrefix(t, 2);
    assert RestoreStepAt(t, 2);
  }

  /** The core parks exactly when the frame holds a zero ELR. */
  lemma ParksExactly(e: Entry, c: Cpu)
    ensures RestoreFrame(e, c).None? <==> Peek(c.mem, c.sp + Slot(ELR_EL1)) == 0
  {
    RestoreRuns(e, c);
    PoppedElr(Trace(c, RestoreBlocks(e)));
  }

  /** Restoring from a frame brings back its registers, whatever the registers were before. */
  lemma RestorePhase(e: Entry, c: Cpu, saved: Regs)
    requires Holds(c.mem, c.sp, saved)
    ensures RestoreFrame(e, c).Some? <==> Get(saved, ELR_EL1) != 0
    ensures var d := RestoreFrame(e, c);
            d.Some? ==> d.value.sp == c.sp + FRAME_BYTES && d.value.mem == c.mem && Resumes(d.value.regs, saved)
  {
    ParksExactly(e, c);
    assert Held(c.mem, c.sp, saved, ELR_EL1);
    RestoreRuns(e, c);
    RestoreResumes(Trace(c, RestoreBlocks(e)), saved);
  }
}
